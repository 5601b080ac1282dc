# DCF snapshot, chat-history trimming and watchlist rule of an investment-chat Streamlit app

This Dafny project models the three pieces of plain logic inside `streamlit_app.py`, a Streamlit
front-end that wraps a chat-completion API for investment analysis:

- **Scenario DCF calculator** (`simple_dcf_scenarios` and its inner `scenario_calc`). A financial
  profile (revenue, operating margin, tax rate, reinvestment rate, share count) gives one year-1
  free cash flow. For each of three (WACC, g) assumptions it computes:
  - a Gordon-growth terminal value, which is NaN when `wacc <= g`;
  - an enterprise value: the year-1 flow discounted one year plus the terminal value discounted
    over the horizon;
  - a price per share: the enterprise value divided by `max(shares_out, 1e-6)`.

  The rows are labelled 보수 (conservative), 기준 (base) and 공격 (aggressive), in that order.
- **History trimming** (`trim_messages`) and **request assembly** (`build_messages`). Trimming
  keeps a conversation within `max_pairs` user/assistant pairs. Assembly puts one system record in
  front of the trimmed history.
- **Watchlist add rule** (the sidebar "추가" button). A ticker is appended in upper case only when
  the input is non-empty and the upper-cased ticker is not listed yet.

Modelling choices:

- Python floats are Dafny `real`s. A NaN field is `Option.None` (module `Wrappers`), so the
  code's `tv == tv` test is explicit: NaN flows from the terminal value to EV and Price/Share, and
  nowhere else.
- Over exact reals, the one exception the DCF code can raise is Python's `ZeroDivisionError` in
  `fcf / (1 + wacc)`, when `1 + wacc == 0`. It is a `Result.Failure`, not a precondition. The
  input form's bounds (WACC in [0.01, 0.5], g in [-0.1, 0.2], rates in [0, 1], horizon 3..10)
  appear only as hypotheses of the lemmas that need them. `FormInputsNeverFail` proves that such
  inputs never raise.
- `horizon_years` is an `int`. Python's `float ** int`, negative exponents included, is
  `Dcf.IntPow`.
- The Python function takes the six rates as `wacc_bear, wacc_base, wacc_bull, g_bear, g_base,
  g_bull`. The model groups them into one `Assumption` per scenario.
- `st.session_state.system_prompt` and `st.session_state.messages` are parameters of
  `BuildMessages`. Python's `str.upper()` is a parameter `upper: string -> string` of the watchlist
  functions, so the watchlist properties hold for any upper-casing.
- For the form's default inputs the code gives a base EV of about 12201.72: the discounted
  terminal value is 17626.875 / 1.1^5 ≈ 10944.9. `DefaultFormValuation` proves that the base
  price lies between 12.2017 and 12.2018.
- The code raises `ZeroDivisionError` when `1 + wacc == 0`, a value the form never allows.

## Model

| member | source | states |
|---|---|---|
| Dcf.TerminalValue | streamlit_app.py:349-352 | the terminal value is undefined (NaN) exactly when wacc <= g (the formula itself is the helper `Gordon`, line 352) |
| Dcf.GordonGrowthIdentity | streamlit_app.py:352 | a defined terminal value is the Gordon perpetuity: multiplied by the spread wacc - g it gives next year's grown flow fcf * (1 + g) |
| Dcf.IntPow | streamlit_app.py:354 | `(1 + wacc) ** horizon_years` for a nonzero base and any int exponent is nonzero, positive for a positive base, and for a negative exponent the reciprocal of the positive power |
| Dcf.EffectiveShares | streamlit_app.py:356 | the divisor `max(shares_out, 1e-6)` is at least 1e-6 and at least the share count, and is one of the two |
| Dcf.PricePerShare | streamlit_app.py:356 | Price/Share is undefined exactly when EV is undefined |
| Dcf.PriceTimesSharesIsEv | streamlit_app.py:356 | a defined price times the floored share count gives back the EV |
| Dcf.ScenarioCalc | streamlit_app.py:345-357 | a row raises exactly when 1 + wacc is 0; otherwise it carries its label, echoes its WACC and g, has FCF(yr1) = revenue * margin * (1 - tax) * (1 - reinvestment), and its EV and Price/Share are undefined exactly when wacc <= g (helper `FreeCashFlow`, lines 346-348) |
| Dcf.SimpleDcfScenarios | streamlit_app.py:339-363 | the table raises exactly when some 1 + wacc is 0; otherwise it has three rows labelled 보수, 기준, 공격 in that order, each echoing its own WACC and g, all with the same FCF(yr1), each undefined exactly when its own wacc <= g |
| Dcf.DefinedRowClosedForm | streamlit_app.py:351-356 | when wacc > g, EV = fcf/(1+wacc) + (fcf*(1+g)/(wacc-g)) / (1+wacc)^horizon and Price/Share = EV / max(shares, 1e-6) (helpers `EvFormula`, `Gordon` and the power `Pow`, lines 351-354) |
| Dcf.UndefinedRowPropagation | streamlit_app.py:349-356 | when wacc <= g, the terminal value, EV and Price/Share are all undefined, never zero, while FCF(yr1) stays defined |
| Dcf.ZeroSharesUsesFloor | streamlit_app.py:356 | with zero shares a defined EV gives a defined price equal to EV / 1e-6 |
| Dcf.RowsAreOwnScenarios | streamlit_app.py:358-362 | when no 1 + wacc is 0, each row of the table is the scenario calculation of its own (WACC, g) with the shared profile and horizon |
| Dcf.BearChangeLeavesOtherRows | streamlit_app.py:358-362 | changing only the 보수 assumptions leaves the 기준 and 공격 rows unchanged |
| Dcf.UndefinedRowIsIsolated | streamlit_app.py:349-362 | an undefined 보수 row leaves the 기준 and 공격 prices defined when their own wacc > g |
| Dcf.FormInputsNeverFail | streamlit_app.py:563-582 | inputs within the form's bounds never make the calculation raise |
| Dcf.FormFreeCashFlowBounds | streamlit_app.py:346-348 | with rates in [0, 1] and non-negative revenue, 0 <= FCF(yr1) <= revenue |
| Dcf.FormValuationNonNegative | streamlit_app.py:345-356 | within the form's bounds a defined EV and Price/Share are never negative |
| Dcf.FormValuationDecreasesWithWacc | streamlit_app.py:349-356 | within the form's bounds a higher WACC with the same g never raises EV or Price/Share |
| Dcf.FormValuationIncreasesWithGrowth | streamlit_app.py:349-356 | within the form's bounds a higher g below the same WACC never lowers EV or Price/Share |
| Dcf.DefaultFormValuation | streamlit_app.py:563-576 | for the form's default inputs all rows are defined, FCF(yr1) is 1382.5, the base price is between 12.2017 and 12.2018, and prices rise from 보수 to 기준 to 공격 |
| ChatHistory.Dialogue | streamlit_app.py:307 | `ua` is no longer than the input, holds only user/assistant records, and holds each of them exactly as often as the input does |
| ChatHistory.DialogueIsSubsequence | streamlit_app.py:307 | `ua` keeps the input's relative order |
| ChatHistory.DialogueOfDialogue | streamlit_app.py:307 | filtering a list of only user/assistant records returns it unchanged |
| ChatHistory.PySliceFrom | streamlit_app.py:310 | Python's `s[start:]` is a suffix of `s`, and its length follows the negative-index and clamping rules |
| ChatHistory.TrimMessages | streamlit_app.py:306-310 | with at most 2*max_pairs user/assistant records the input comes back unchanged, other roles included; otherwise the result is a suffix of `ua` with only user/assistant records, exactly 2*max_pairs long when max_pairs >= 1 |
| ChatHistory.TrimPreservesOrder | streamlit_app.py:306-310 | for any max_pairs the result lists input records in their original order |
| ChatHistory.TrimLongIsDialogueSuffix | streamlit_app.py:307-310 | a long history, trimmed to a suffix of `ua`, still lists input records in their original order |
| ChatHistory.TrimBoundsDialogue | streamlit_app.py:306-310 | for max_pairs >= 1 the result holds at most 2*max_pairs user/assistant records |
| ChatHistory.TrimIdempotent | streamlit_app.py:306-310 | for max_pairs >= 0, trimming a trimmed history changes nothing |
| ChatHistory.TrimZeroPairsKeepsEverything | streamlit_app.py:308-310 | as written, max_pairs = 0 returns a one-message user history in full, above the 2*0 bound |
| ChatHistory.TrimMessagesBounded | streamlit_app.py:306-310 | corrected trim: a long history keeps exactly its last 2*max_pairs user/assistant records for every max_pairs >= 0 |
| ChatHistory.TrimBoundedBoundsDialogue | streamlit_app.py:306-310 | the corrected trim never holds more than 2*max_pairs user/assistant records, zero included |
| ChatHistory.TrimAgreesWithBounded | streamlit_app.py:306-310 | for max_pairs >= 1 the code as written and the corrected trim agree |
| ChatHistory.BuildMessages | streamlit_app.py:365-368 | the request starts with one system record whose content begins with the system prompt and ends with the tone line, followed by exactly `trim_messages(messages, 18)` as written |
| ChatHistory.BuildMessagesHistory | streamlit_app.py:365-368 | the history part keeps the original order, holds at most 36 user/assistant records, and equals the corrected trim at 18 pairs, where it agrees with the code as written |
| Watchlist.AddTicker | streamlit_app.py:282-284 | the old list is a prefix of the result, which grows by one exactly when the input is non-empty and its upper-cased form is not listed; the result holds exactly the old tickers plus that form |
| Watchlist.AddTickerKeepsNoDuplicates | streamlit_app.py:283-284 | adding keeps the watchlist free of duplicates |
| Watchlist.AddTickerIdempotent | streamlit_app.py:283-284 | a second add of the same input changes nothing |
| Watchlist.AddTickers | streamlit_app.py:282-284 | after a series of adds the old list is a prefix of the result, which grew by at most one entry per add |
| Watchlist.AddTickersKeepsNoDuplicates | streamlit_app.py:283-284 | no series of adds makes the watchlist list a ticker twice |
| Watchlist.AddTickersContents | streamlit_app.py:283-284 | after a series of adds the watchlist holds exactly the old tickers and the upper-cased non-empty inputs |

## Left out

- IEEE-754 behaviour: rounding, and NaN or infinite inputs. The model uses exact reals, and NaN
  arises only from the `wacc <= g` branch.
- The float exceptions of `(1 + wacc) ** horizon_years` (streamlit_app.py:354): it raises
  `OverflowError` when the power leaves the float range (wacc = 0.5, g = 0, horizon_years = 2000),
  and when it underflows to 0.0, `tv / 0.0` raises `ZeroDivisionError` (wacc = -0.9999, g = -2,
  horizon_years = 100). Both need inputs outside the form's bounds, where the power stays between
  1.01^3 and 1.5^10.
- The default arguments `horizon_years=5` (streamlit_app.py:343) and `max_pairs=18`
  (streamlit_app.py:306): both call sites (streamlit_app.py:580-583 and 367) pass the value
  explicitly, so the model's parameters have no defaults.
- Determinism of the calculator is not stated separately: Dafny functions are deterministic.
- The pandas DataFrame, its on-screen rendering and the CSV export (streamlit_app.py:363,
  584-586). The table is a `seq<Row>`.
- All Streamlit UI code: page config and CSS, onboarding, sidebar widgets, tabs, and
  `st.session_state` mutation. This is rendering and global state.
- The watchlist reset button (streamlit_app.py:287-288): it assigns an empty list, and there is
  nothing to state about it.
- OpenAI client construction and `call_chat` (streamlit_app.py:240, 370-395): network I/O and
  streaming through a foreign library.
- `parse_json_block` (streamlit_app.py:312-325): its behaviour is defined by Python's `re` and
  `json` modules, which are not part of this model.
- `extract_text_from_pdf` and upload decoding (streamlit_app.py:327-337, 527-557): file I/O through
  pypdf.
- Prompt templates and the tone lookup table (streamlit_app.py:272-276 and the tab bodies): these
  are constant text. `BuildMessages` takes the tone line as a parameter.
- Dcf.IntPow: states that the power is nonzero, its sign, and the reciprocal rule for negative
  exponents, not its full value; `Dcf.Pow` gives the value.

## Findings

| source | as written | input that shows it | evidently intended | confidence | as-written member | corrected member |
|---|---|---|---|---|---|---|
| streamlit_app.py:308-310 | a long history is returned as `ua[-2 * max_pairs:]`, and with max_pairs = 0 that is `ua[-0:]`, the whole list | `trim_messages([{"role": "user", "content": "hi"}], max_pairs=0)` returns the message | keep no user/assistant record when zero pairs are asked for | low; not executed; the only call site passes 18, where both agree (`ChatHistory.TrimAgreesWithBounded`) | ChatHistory.TrimZeroPairsKeepsEverything | ChatHistory.TrimMessagesBounded |
