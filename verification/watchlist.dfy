/** The sidebar watchlist's "add" button in streamlit_app.py: a ticker typed by the user is
    appended in upper case when the input is non-empty and the upper-cased ticker is not
    listed yet.

    Python's `str.upper()` is not modelled; it is the parameter `upper`, so every property
    below holds whatever the upper-casing does.
 */
module Watchlist {

  /** No ticker is listed twice. */
  predicate NoDuplicates(wl: seq<string>)
  {
    forall i, j :: 0 <= i < j < |wl| ==> wl[i] != wl[j]
  }

  /** One press of the add button with `input` in the text box. */
  function AddTicker(wl: seq<string>, input: string, upper: string -> string): (r: seq<string>)
    ensures wl <= r && |r| <= |wl| + 1
    ensures forall x :: x in r <==> x in wl || (input != "" && x == upper(input))
    ensures |r| == |wl| + 1 <==> input != "" && upper(input) !in wl
  {
    if input != "" && upper(input) !in wl then wl + [upper(input)] else wl
  }

  /** Adding keeps the watchlist free of duplicates. */
  lemma AddTickerKeepsNoDuplicates(wl: seq<string>, input: string, upper: string -> string)
    requires NoDuplicates(wl)
    ensures NoDuplicates(AddTicker(wl, input, upper))
  {
  }

  /** Pressing add twice with the same input changes nothing the second time. */
  lemma AddTickerIdempotent(wl: seq<string>, input: string, upper: string -> string)
    ensures AddTicker(AddTicker(wl, input, upper), input, upper) == AddTicker(wl, input, upper)
  {
  }

  /** A series of presses of the add button, one input per press. */
  function AddTickers(wl: seq<string>, inputs: seq<string>, upper: string -> string): (r: seq<string>)
    ensures wl <= r
    ensures |r| <= |wl| + |inputs|
    decreases |inputs|
  {
    if inputs == [] then wl
    else AddTickers(AddTicker(wl, inputs[0], upper), inputs[1..], upper)
  }

  /** However many tickers are added, the watchlist never lists one twice. */
  lemma {:induction false} AddTickersKeepsNoDuplicates(wl: seq<string>, inputs: seq<string>, upper: string -> string)
    requires NoDuplicates(wl)
    ensures NoDuplicates(AddTickers(wl, inputs, upper))
    decreases |inputs|
  {
    if inputs != [] {
      AddTickerKeepsNoDuplicates(wl, inputs[0], upper);
      AddTickersKeepsNoDuplicates(AddTicker(wl, inputs[0], upper), inputs[1..], upper);
    }
  }

  /** After a series of presses, the watchlist holds exactly the earlier tickers and the
      upper-cased non-empty inputs. */
  lemma {:induction false} AddTickersContents(wl: seq<string>, inputs: seq<string>, upper: string -> string)
    ensures forall x :: x in AddTickers(wl, inputs, upper) <==>
      x in wl || exists k :: 0 <= k < |inputs| && inputs[k] != "" && x == upper(inputs[k])
    decreases |inputs|
  {
    if inputs != [] {
      var wl' := AddTicker(wl, inputs[0], upper);
      AddTickersContents(wl', inputs[1..], upper);
      forall x
        ensures x in AddTickers(wl, inputs, upper) <==>
          x in wl || exists k :: 0 <= k < |inputs| && inputs[k] != "" && x == upper(inputs[k])
      {
        if exists k :: 0 <= k < |inputs[1..]| && inputs[1..][k] != "" && x == upper(inputs[1..][k]) {
          var k :| 0 <= k < |inputs[1..]| && inputs[1..][k] != "" && x == upper(inputs[1..][k]);
          assert inputs[k + 1] == inputs[1..][k];
        }
        if exists k :: 0 <= k < |inputs| && inputs[k] != "" && x == upper(inputs[k]) {
          var k :| 0 <= k < |inputs| && inputs[k] != "" && x == upper(inputs[k]);
          if k > 0 {
            assert inputs[1..][k - 1] == inputs[k];
          }
        }
      }
    }
  }
}
