# ice-kube log pipeline and pod browser, modelled in Dafny

ice-kube is a terminal tool for Kubernetes. Its `logs` command finds pods in a
namespace and tails their logs. It colours each pod's lines and marks error
lines and lines matching a highlight pattern. Its `ui` command shows a table of
pods that can be browsed with the arrow keys.

This project models the two decision layers inside that I/O code as pure
functions over immutable data.

- **Logs** (`src/logs.rs`):
  - Pod selection by name pattern (`collect_pods`).
  - The numbered pod list and the index lookup (`list_pods`, `select_pod`).
  - The colour draw from the fixed 8-entry palette (`get_color`).
  - The per-pod spawn plan of `follow_logs`.
  - Per-line classification in `stream_logs`. Filter mode shows only highlighted lines, with no pod prefix. Normal mode checks the case-sensitive markers `ERROR`/`error`/`Error` first, then a non-empty highlight, else the line is plain.
  - The stop rule: the tailer stops at the first line that is not UTF-8.

  Terminal output is a sequence of `Render` records (optional coloured pod prefix, category, text) rather than escape sequences. The regular-expression engine is a parameter (`RegexEngine`): which patterns compile, and whether a pattern matches a line.
- **Ui** (`src/ui.rs`):
  - The `KubePod::new` summary: ready count, container count, restart total and phase, with defaults when data is missing.
  - The wrap-around table cursor for Down/`j` and Up/`k`.
  - `RefreshPods` and the key-event dispatch.
  - The four-cell rows of `render_pods`.
  - The tab index of `ActionItem::Home`.

Supporting modules:
- `Text`: `str::contains` as a recursive substring search.
- `Utf8`: what `String::from_utf8` accepts. These are the well-formed sequences of Table 3-7 in section 3.9 of the Unicode Standard. The module has a decoder and an encoder with round-trip proofs in both directions.
- `Decimal`: `format!("{}")` of integers, with a parser proved to read it back.
- `Seqs`: order-preserving filtering.

Three behaviours of the code the model keeps:
- Pod selection returns a list of names in listing order.
- A plain line is printed after `ResetColor`. Only the pod-name prefix has the pod's colour.
- Each tailer compiles the highlight pattern itself, after opening its stream (`src/logs.rs:198-199`). An invalid pattern panics inside that tailer's task, so under `follow_logs` it ends only that tailer. The model reports this as the tailer outcome `Failed(InvalidHighlight)`.

## Model

| member | source | states |
|---|---|---|
| `Logs.GetColor` | src/logs.rs:72-80 | The colour is a palette entry. It is the entry at the index the draw truncates to: the `i` with `i <= draw < i + 1`. |
| `Logs.CategoryOf` | src/logs.rs:221-242 | In normal mode a line is Error exactly when it contains `ERROR`, `error` or `Error`. It is Highlighted exactly when it has no marker and the highlight is non-empty and matches. Otherwise it is Plain. |
| `Logs.Classify` | src/logs.rs:203-244 | Filter mode emits a line exactly when the highlight is non-empty and matches. The record is then Highlighted, has no prefix and carries the line. Normal mode always emits one record with the pod/colour prefix, the line's text and the normal-mode category. |
| `Logs.FilterIgnoresErrors` | src/logs.rs:203-213 | In filter mode, whether a line is shown depends only on the highlight match. Error markers play no part. |
| `Logs.EmptyHighlightNeverHighlights` | src/logs.rs:199-204 | An empty highlight never highlights, even if the engine's empty pattern matches every line. Filter mode then suppresses everything. |
| `Logs.ErrorBeatsHighlight` | src/logs.rs:221-232 | `"2024 error: pattern-xyz seen"` with highlight `pattern-xyz` is Error even when the highlight matches. |
| `Logs.MarkersAreCaseSensitive` | src/logs.rs:221-223 | `"eRRor"` contains none of the error markers. |
| `Text.ContainsIffOccurs` | src/logs.rs:221-223 | The left-to-right substring search succeeds exactly when the marker occurs at some offset. |
| `Logs.FirstInvalid` | src/logs.rs:201-202 | Gives the index of the first line that does not decode (every earlier line decodes), or the number of lines if all decode. |
| `Logs.StreamLogs` | src/logs.rs:176-248 | The line-by-line loop produces exactly `Tail`. If the stream cannot be opened: no output and a connect failure. If the highlight does not compile: no output and `InvalidHighlight`. Otherwise it outputs the records of the lines before the first undecodable one. It ends with `NotUtf8(k)`, a stream failure, or a clean end. |
| `Logs.NormalModeRecords` | src/logs.rs:214-244 | In normal mode every decoded line yields exactly one record, in order. Each record has the pod's prefix, the line's category and the line's text. |
| `Logs.FilterModeRecords` | src/logs.rs:203-213 | In filter mode the records are exactly the highlighted lines, in order, each Highlighted and unprefixed. |
| `Logs.TailNormalMode` | src/logs.rs:201-244 | A normal-mode tailer emits one record per line up to the first undecodable line. Record `j`'s text re-encodes to exactly the bytes of line `j`. |
| `Logs.TailFilterMode` | src/logs.rs:201-213 | A filter-mode tailer's texts are an order-preserving subsequence of the decoded lines. Every record is highlighted, unprefixed and matching. |
| `Logs.StopsAtFirstInvalid` | src/logs.rs:201-202 | Lines after the first undecodable line have no effect on the output. The status is `NotUtf8` at that index. |
| `Utf8.CodePoint` | src/logs.rs:202 | Each accepted byte sequence carries a Unicode scalar value in shortest form for its length. |
| `Utf8.DecodeEncode` | src/logs.rs:202 | Decoding the UTF-8 encoding of any string gives back the string. |
| `Utf8.EncodeDecode` | src/logs.rs:202 | An accepted line is exactly the encoding of its decoded text. |
| `Utf8.DecodeAscii` | src/logs.rs:202 | Bytes below 0x80 decode one-to-one to the characters with those codes. |
| `Seqs.Filter` | src/logs.rs:161-173 | A filter keeps only elements that pass. It keeps every element that passes, and the result is a subsequence of the input. |
| `Logs.CollectPods` | src/logs.rs:148-174 | A listing failure is passed on. Otherwise the result is a success holding the listed names the pattern matches, in listing order. An empty result is still a success. |
| `Logs.CollectedPodsAreMatches` | src/logs.rs:161-173 | The kept names are a subsequence of the listing. A listed name is kept exactly when the pattern matches it. Unique listed names stay unique. The whole listing is kept exactly when every name matches. |
| `Logs.ListPods` | src/logs.rs:134-146 | The map's keys are exactly `0..n`. Key `i` maps to the i-th listed pod. A listing failure is passed on. |
| `Logs.SelectPod` | src/logs.rs:102-132 | A listed index gives one tailer for that pod, with the drawn colour and the command's options. An index with no entry gives no tailer and still succeeds. |
| `Logs.FollowLogs` | src/logs.rs:82-100 | One spawn per selected pod, in selection order. Spawn `i` gets draw `i`'s colour and shares the namespace, tail length, highlight and filter flag. A listing failure is passed on. |
| `Logs.SpawnPlanShape` | src/logs.rs:86-95 | Every spawned tailer's colour is in the palette. Distinct selected pods give distinct spawns. |
| `Logs.JoinAll` | src/logs.rs:93-97 | Waiting for all tailers yields exactly one result per spawned tailer. |
| `Logs.FailureIsIsolated` | src/logs.rs:93-97 | Replacing one tailer's stream, with a broken one say, changes no other tailer's result. |
| `Ui.NewKubePod` | src/ui.rs:232-264 | The summary counts the ready containers, with `0 <= ready <= container_count`. It sums the restart counts. A missing status or status list gives 0/0/0, and a missing phase gives `""`. |
| `Ui.AllReadyIff` | src/ui.rs:240-245 | The ready count is at most the container count. It equals it exactly when every container is ready. |
| `Ui.Down` | src/ui.rs:193-203 | On a non-empty list Down always lands in range. From an in-range row it is the cyclic successor `(sel + 1) % len`. From an out-of-range row it returns to 0. |
| `Ui.Up` | src/ui.rs:204-214 | From an in-range row Up is the cyclic predecessor, in range. An out-of-range row above `len` only steps back by one. |
| `Ui.UpDownInverse` | src/ui.rs:193-214 | On an in-range selection, Up after Down and Down after Up restore the selection. |
| `Ui.DownCycles` | src/ui.rs:193-203 | From row `sel`, `len - sel` presses of Down reach row 0, and `len` presses come back to `sel`. |
| `Ui.DownWalks` | src/ui.rs:193-203 | Down presses that stay inside the list advance one row each. |
| `Ui.DownAsWritten` | src/ui.rs:196-200 | Down with the usize subtraction as written. It agrees with `Down` on every non-empty list. |
| `Ui.UpAsWritten` | src/ui.rs:207-211 | Up with the usize subtraction as written. It agrees with `Up` on every non-empty list. |
| `Ui.EmptyListEscapes` | src/ui.rs:196-210 | On an empty list the as-written keys move selection 0 to row 1 (Down) or to row 2^64-1 (Up). Neither row exists. |
| `Ui.MoveDown` | src/ui.rs:193-203 | The corrected Down move (see Findings): `Down` on a non-empty list. It leaves the selection unchanged on an empty list and when nothing is selected. |
| `Ui.MoveUp` | src/ui.rs:204-214 | The corrected Up move (see Findings): `Up` on a non-empty list. It leaves the selection unchanged on an empty list and when nothing is selected. |
| `Ui.MovesStayInRange` | src/ui.rs:193-214 | The moves keep an in-range selection in range. On an empty list they leave the selection unchanged. |
| `Ui.TabIndex` | src/ui.rs:36-41 | `Home` selects a valid tab of the menu, the "Pods" tab. |
| `Ui.HandleEvent` | src/ui.rs:184-219 | The key dispatch as written. `q` and only `q` quits. Down/`j` and Up/`k` change only the selection, by the usize arithmetic of `DownAsWritten`/`UpAsWritten`. With nothing selected they change nothing. Any other key and the tick leave the state unchanged. |
| `Ui.HandleEventCorrected` | src/ui.rs:184-219 | The same dispatch with the corrected moves `MoveDown`/`MoveUp` (see Findings). |
| `Ui.HandlersAgreeOnNonEmpty` | src/ui.rs:193-214 | On a non-empty list the as-written and the corrected handlers agree on every event. |
| `Ui.StartupCursorKeys` | src/ui.rs:113-119 | The start-up state has no pods and row 0 selected. There Down as written selects row 1 and Up selects row 2^64-1. The corrected handler keeps row 0. |
| `Ui.HandleUiEvent` | src/ui.rs:220-224 | `RefreshPods` replaces the pod list wholesale. It keeps the selection and the active tab. |
| `Ui.EventsKeepSelectionInRange` | src/ui.rs:193-214 | Key events, as written, keep an in-range selection in range. |
| `Ui.CorrectedKeysNeverEscape` | src/ui.rs:193-214 | With the corrected handler, an in-range selection stays in range. On an empty list every key leaves the selection unchanged. |
| `Ui.DownAfterShrinkingRefresh` | src/ui.rs:193-222 | After a refresh shrinks the list below the selection, one Down brings the selection back to row 0. |
| `Ui.RenderPods` | src/ui.rs:283-294 | One row per pod, each with four cells. |
| `Ui.ReadyCellRoundTrip` | src/ui.rs:289 | The `"ready/container_count"` cell reads back as its two numbers. |
| `Decimal.NatToString` | src/ui.rs:289-290 | The decimal text of a count is non-empty and all digits. It has no leading zero unless the number is 0. |
| `Decimal.ParseIntToString` | src/ui.rs:289-290 | An integer's decimal text reads back as that integer. |
| `Ui.RenderedRowsReadBack` | src/ui.rs:284-294 | Row `i` shows pod `i`: its name, its ready/container counts, its restart total and its phase, all of which read back. |

## Findings

| source | as written | input that shows it | evidently intended | confidence | as-written member | corrected member |
|---|---|---|---|---|---|---|
| src/ui.rs:196-210 | The cursor computes `pod_list.len() - 1` on `usize`. On an empty list this underflows: a debug build panics, and a release build wraps to 2^64-1. | An empty pod list with the initial selection `Some(0)`. This happens before the first refresh arrives, or in a namespace without pods. Then press Down or `j` (selection becomes 1) or Up or `k` (selection becomes 2^64-1). | A key press on an empty table leaves the selection where it was and never points at a row that does not exist. | medium; not executed | `Ui.DownAsWritten`, `Ui.UpAsWritten`, `Ui.HandleEvent`, `Ui.EmptyListEscapes`, `Ui.StartupCursorKeys` | `Ui.MoveDown`, `Ui.MoveUp`, `Ui.HandleEventCorrected`, `Ui.MovesStayInRange`, `Ui.CorrectedKeysNeverEscape` |

## Left out

- Concurrency and scheduling are not modelled: `tokio::spawn`, `join_all`, the mpsc channels and the key-polling loop with its tick timeout. The fan-out is a spawn plan (`FollowLogs`) plus independent per-tailer results (`JoinAll`).
- The Kubernetes client is not modelled: `Config::infer` and its kubeconfig fallback, `Api::list`, `log_stream`, and `src/util.rs`. The pod listing is an input `Result<seq<PodName>>`. A tailer's connection is an input `Result<LogStream>`: the raw lines, then a clean close or a stream error. A configuration failure before the stream opens counts as `ConnectFailed`. `Spawn` carries `tail_lines` but the model does not interpret it. `stream_logs` always sets `follow` and `pretty` to true (`src/logs.rs:195-196`), and these are not modelled.
- Terminal output is not modelled: crossterm escape sequences, raw mode, the alternate screen, tui layout and styling, and the informational `println!`s. `Render` records stand in for it. A failing terminal write, which ends the tailer through `?`, is not modelled.
- The regex engine is a parameter. `collect_pods` unwraps `Regex::new` in the caller's task, so `CollectPods` and `FollowLogs` require the pattern to compile.
- GetColor: does not model the f32 arithmetic of `gen_range(0.0, 8.0)`. The draw is a real in `[0, 8)` passed in as a parameter, and truncation is `Floor`.
- Interactive input is not modelled: reading stdin and `parse::<usize>` in `select_pod`. The index is a parameter. A read error that is printed and ignored is not modelled.
- SelectPod: returns the tailer to run for the chosen pod. It does not await that tailer's result; `StreamLogs`/`Tail` give that result.
- `src/main.rs` (argument parsing and dispatch) is not modelled. It calls `stream_logs` with four arguments, and its `LogsOpts` has no `highlight` or `filter` field. `src/logs.rs` is modelled as written, with `LogsOpts` holding those fields.
- NewKubePod: uses unbounded integers. It does not model overflow of the `i32` restart sum, or the `as i32` truncation of the container count.
- Down: requires a non-empty list, because the source's `len - 1` underflows on an empty one. That case is covered by the finding above.
- Up: requires a non-empty list, for the same reason as `Down`.
- HandleEvent: requires the list length and the selection to fit in 64 bits, as a `usize` does. It models a release build, where `len() - 1` wraps; a debug build panics on an empty list instead.
- The pod detail ("describe") view, the header row and the column widths of the table are not modelled. They are presentation only.
