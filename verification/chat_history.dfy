/** Chat history handling in streamlit_app.py: `trim_messages`, which keeps a conversation
    within a number of user/assistant pairs, and `build_messages`, which puts one system
    record in front of the trimmed history.

    A message is a (role, content) record. Python's slice `ua[-k:]` is modelled by PySliceFrom,
    with its negative-index and clamping rules.
 */
module ChatHistory {

  datatype Message = Message(role: string, content: string)

  /** Pairs of history kept by `build_messages` (`max_pairs=18`). */
  const HistoryPairs: nat := 18

  /** Fixed text between the system prompt's line break and the tone line. */
  const TonePrefix: string := "추가 톤 지시: "

  predicate IsDialogue(m: Message)
  {
    m.role == "user" || m.role == "assistant"
  }

  predicate AllDialogue(ms: seq<Message>)
  {
    forall i :: 0 <= i < |ms| ==> IsDialogue(ms[i])
  }

  /** `a` occurs in `b` in order, possibly with other elements in between. */
  ghost predicate IsSubsequence<T>(a: seq<T>, b: seq<T>)
    decreases |b|
  {
    if a == [] then true
    else if b == [] then false
    else (a[0] == b[0] && IsSubsequence(a[1..], b[1..])) || IsSubsequence(a, b[1..])
  }

  // ---------------------------------------------------------------------------
  // The user/assistant filter (`ua` in trim_messages)
  // ---------------------------------------------------------------------------

  /** The user/assistant records of `ms`, in their original order. */
  function Dialogue(ms: seq<Message>): (ua: seq<Message>)
    ensures |ua| <= |ms|
    ensures AllDialogue(ua)
    ensures forall m :: IsDialogue(m) ==> multiset(ua)[m] == multiset(ms)[m]
  {
    if ms == [] then []
    else
      assert ms == [ms[0]] + ms[1..];
      (if IsDialogue(ms[0]) then [ms[0]] else []) + Dialogue(ms[1..])
  }

  /** Filtering keeps nothing but what it already had: it is the identity on dialogue-only lists. */
  lemma {:induction false} DialogueOfDialogue(ms: seq<Message>)
    requires AllDialogue(ms)
    ensures Dialogue(ms) == ms
  {
    if ms != [] {
      DialogueOfDialogue(ms[1..]);
    }
  }

  lemma {:induction false} SubsequenceReflexive<T>(a: seq<T>)
    ensures IsSubsequence(a, a)
  {
    if a != [] {
      SubsequenceReflexive(a[1..]);
    }
  }

  lemma SubsequenceOfTail<T>(a: seq<T>, b: seq<T>)
    requires b != [] && IsSubsequence(a, b[1..])
    ensures IsSubsequence(a, b)
  {
  }

  /** Dropping the first element of a subsequence leaves a subsequence. */
  lemma {:induction false} SubsequenceDropFirst<T>(a: seq<T>, b: seq<T>)
    requires a != [] && IsSubsequence(a, b)
    ensures IsSubsequence(a[1..], b)
    decreases |b|
  {
    assert b != [];
    if a[0] == b[0] && IsSubsequence(a[1..], b[1..]) {
      SubsequenceOfTail(a[1..], b);
    } else {
      SubsequenceDropFirst(a, b[1..]);
      SubsequenceOfTail(a[1..], b);
    }
  }

  /** Every suffix of a subsequence is a subsequence. */
  lemma {:induction false} SubsequenceSuffix<T>(a: seq<T>, b: seq<T>, k: nat)
    requires k <= |a| && IsSubsequence(a, b)
    ensures IsSubsequence(a[k..], b)
    decreases k
  {
    if k > 0 {
      SubsequenceSuffix(a, b, k - 1);
      assert a[k - 1..][1..] == a[k..];
      SubsequenceDropFirst(a[k - 1..], b);
    }
  }

  /** The user/assistant records keep their original relative order. */
  lemma {:induction false} DialogueIsSubsequence(ms: seq<Message>)
    ensures IsSubsequence(Dialogue(ms), ms)
  {
    if ms != [] {
      DialogueIsSubsequence(ms[1..]);
      if IsDialogue(ms[0]) {
        assert Dialogue(ms) == [ms[0]] + Dialogue(ms[1..]);
        assert Dialogue(ms)[1..] == Dialogue(ms[1..]);
      } else {
        assert Dialogue(ms) == Dialogue(ms[1..]);
        if Dialogue(ms) != [] {
          SubsequenceOfTail(Dialogue(ms), ms);
        }
      }
    }
  }

  // ---------------------------------------------------------------------------
  // trim_messages
  // ---------------------------------------------------------------------------

  /** Python's `s[start:]`: a negative start counts from the end and is clamped at 0;
      a start past the end gives the empty list. */
  function PySliceFrom<T>(s: seq<T>, start: int): (r: seq<T>)
    ensures |r| <= |s| && r == s[|s| - |r|..]
    ensures start >= 0 ==> |r| == if start <= |s| then |s| - start else 0
    ensures start < 0 ==> |r| == if -start <= |s| then -start else |s|
  {
    if start < 0 then
      (if |s| + start < 0 then s else s[|s| + start..])
    else
      (if start > |s| then [] else s[start..])
  }

  /** `trim_messages(messages, max_pairs)` as written: a short history comes back unchanged,
      a long one as `ua[-2 * max_pairs:]`. */
  function TrimMessages(ms: seq<Message>, maxPairs: int): (r: seq<Message>)
    ensures |Dialogue(ms)| <= 2 * maxPairs ==> r == ms
    ensures |Dialogue(ms)| > 2 * maxPairs ==>
      && AllDialogue(r)
      && |r| <= |Dialogue(ms)|
      && r == Dialogue(ms)[|Dialogue(ms)| - |r|..]
    ensures |Dialogue(ms)| > 2 * maxPairs && maxPairs >= 1 ==> |r| == 2 * maxPairs
  {
    var ua := Dialogue(ms);
    if |ua| <= 2 * maxPairs then ms else PySliceFrom(ua, -2 * maxPairs)
  }

  /** Whatever the bound, the result lists records of the input in their original order. */
  lemma TrimPreservesOrder(ms: seq<Message>, maxPairs: int)
    ensures IsSubsequence(TrimMessages(ms, maxPairs), ms)
  {
    if |Dialogue(ms)| <= 2 * maxPairs {
      SubsequenceReflexive(ms);
    } else {
      TrimLongIsDialogueSuffix(ms, maxPairs);
    }
  }

  /** A long history is trimmed to a suffix of its user/assistant records, which are in turn
      in the input's order. */
  lemma TrimLongIsDialogueSuffix(ms: seq<Message>, maxPairs: int)
    requires |Dialogue(ms)| > 2 * maxPairs
    ensures IsSubsequence(TrimMessages(ms, maxPairs), ms)
  {
    var ua := Dialogue(ms);
    var r := PySliceFrom(ua, -2 * maxPairs);
    assert TrimMessages(ms, maxPairs) == r;
    DialogueIsSubsequence(ms);
    SubsequenceSuffix(ua, ms, |ua| - |r|);
  }

  /** With at least one pair allowed, the result never holds more than 2 * max_pairs
      user/assistant records. */
  lemma TrimBoundsDialogue(ms: seq<Message>, maxPairs: int)
    requires maxPairs >= 1
    ensures |Dialogue(TrimMessages(ms, maxPairs))| <= 2 * maxPairs
  {
    var r := TrimMessages(ms, maxPairs);
    if |Dialogue(ms)| > 2 * maxPairs {
      DialogueOfDialogue(r);
    }
  }

  /** Trimming twice with the same non-negative bound is trimming once. */
  lemma TrimIdempotent(ms: seq<Message>, maxPairs: int)
    requires maxPairs >= 0
    ensures TrimMessages(TrimMessages(ms, maxPairs), maxPairs) == TrimMessages(ms, maxPairs)
  {
    var r := TrimMessages(ms, maxPairs);
    if |Dialogue(ms)| > 2 * maxPairs {
      DialogueOfDialogue(r);
    }
  }

  /** With max_pairs = 0, `ua[-0:]` is the whole of `ua`: a history holding one user message
      is returned in full, although zero pairs were asked for. */
  lemma TrimZeroPairsKeepsEverything()
    ensures
      var ms := [Message("user", "hi")];
      && TrimMessages(ms, 0) == ms
      && |Dialogue(TrimMessages(ms, 0))| > 2 * 0
  {
    var ms := [Message("user", "hi")];
    assert Dialogue(ms) == ms;
  }

  /** Trimming with the evident intent for every non-negative bound: a long history keeps
      exactly its last 2 * max_pairs user/assistant records, none when max_pairs is 0. */
  function TrimMessagesBounded(ms: seq<Message>, maxPairs: nat): (r: seq<Message>)
    ensures |Dialogue(ms)| <= 2 * maxPairs ==> r == ms
    ensures |Dialogue(ms)| > 2 * maxPairs ==>
      && AllDialogue(r)
      && |r| == 2 * maxPairs
      && r == Dialogue(ms)[|Dialogue(ms)| - |r|..]
  {
    var ua := Dialogue(ms);
    if |ua| <= 2 * maxPairs then ms else ua[|ua| - 2 * maxPairs..]
  }

  /** The corrected trim keeps at most 2 * max_pairs user/assistant records for every
      non-negative bound, zero included. */
  lemma TrimBoundedBoundsDialogue(ms: seq<Message>, maxPairs: nat)
    ensures |Dialogue(TrimMessagesBounded(ms, maxPairs))| <= 2 * maxPairs
  {
    var r := TrimMessagesBounded(ms, maxPairs);
    if |Dialogue(ms)| > 2 * maxPairs {
      DialogueOfDialogue(r);
    }
  }

  /** For max_pairs >= 1, the bound every caller uses, the code as written and the corrected
      trim agree. */
  lemma TrimAgreesWithBounded(ms: seq<Message>, maxPairs: int)
    requires maxPairs >= 1
    ensures TrimMessages(ms, maxPairs) == TrimMessagesBounded(ms, maxPairs)
  {
  }

  // ---------------------------------------------------------------------------
  // build_messages
  // ---------------------------------------------------------------------------

  /** `build_messages(tone_line)`: the session's system prompt and messages are parameters. */
  function BuildMessages(systemPrompt: string, toneLine: string, history: seq<Message>): (r: seq<Message>)
    ensures |r| >= 1 && r[0].role == "system"
    ensures systemPrompt <= r[0].content
    ensures |toneLine| <= |r[0].content| && r[0].content[|r[0].content| - |toneLine|..] == toneLine
    ensures r[1..] == TrimMessages(history, HistoryPairs)
  {
    var systemFull := systemPrompt + "\n" + TonePrefix + toneLine;
    [Message("system", systemFull)] + TrimMessages(history, HistoryPairs)
  }

  /** The request holds one system record, then history records in their original order with
      at most 18 user/assistant pairs; at this bound the code as written behaves as intended. */
  lemma BuildMessagesHistory(systemPrompt: string, toneLine: string, history: seq<Message>)
    ensures
      var r := BuildMessages(systemPrompt, toneLine, history);
      && IsSubsequence(r[1..], history)
      && |Dialogue(r[1..])| <= 2 * HistoryPairs
      && r[1..] == TrimMessagesBounded(history, HistoryPairs)
  {
    TrimAgreesWithBounded(history, HistoryPairs);
    TrimPreservesOrder(history, HistoryPairs);
    TrimBoundsDialogue(history, HistoryPairs);
  }
}
