/** The interactive pod browser: the pod summary shown per table row, the
    table cursor moved by the arrow keys, and the rows the table draws. */
module Ui {
  import opened Wrappers
  import Decimal

  // ----- Pod summaries -----

  datatype ContainerStatus = ContainerStatus(ready: bool, restartCount: int)

  /** The part of a pod's status the browser reads; both fields may be absent. */
  datatype PodStatus = PodStatus(phase: Option<string>, containerStatuses: Option<seq<ContainerStatus>>)

  datatype Pod = Pod(name: string, status: Option<PodStatus>)

  /** One row of the pod table before formatting. */
  datatype KubePod = KubePod(name: string, ready: int, containerCount: int, status: string, restartCount: int)

  /** The container statuses of a pod; none when the status or the list is absent. */
  function ContainerStatuses(pod: Pod): seq<ContainerStatus> {
    match pod.status
    case None => []
    case Some(s) => s.containerStatuses.UnwrapOr([])
  }

  /** The pod's phase, or the empty string when it is absent. */
  function Phase(pod: Pod): string {
    match pod.status
    case None => ""
    case Some(s) => s.phase.UnwrapOr("")
  }

  /** Number of ready containers. */
  function ReadyCount(cs: seq<ContainerStatus>): nat
    decreases |cs|
  {
    if |cs| == 0 then 0
    else ReadyCount(cs[..|cs| - 1]) + (if cs[|cs| - 1].ready then 1 else 0)
  }

  /** Sum of the containers' restart counts. */
  function TotalRestarts(cs: seq<ContainerStatus>): int
    decreases |cs|
  {
    if |cs| == 0 then 0 else TotalRestarts(cs[..|cs| - 1]) + cs[|cs| - 1].restartCount
  }

  /** `KubePod::new`: one pass over the container statuses counting the ready
      ones and adding up restarts; missing data reads as no containers and an
      empty phase. */
  method NewKubePod(pod: Pod) returns (k: KubePod)
    ensures k.name == pod.name && k.status == Phase(pod)
    ensures k.containerCount == |ContainerStatuses(pod)|
    ensures k.ready == ReadyCount(ContainerStatuses(pod))
    ensures 0 <= k.ready <= k.containerCount
    ensures k.restartCount == TotalRestarts(ContainerStatuses(pod))
    ensures pod.status.None? || pod.status.value.containerStatuses.None? ==>
      k.ready == 0 && k.containerCount == 0 && k.restartCount == 0
    ensures pod.status.None? || pod.status.value.phase.None? ==> k.status == ""
  {
    var cs := ContainerStatuses(pod);
    var r := 0;
    var rc := 0;
    for i := 0 to |cs|
      invariant r == ReadyCount(cs[..i]) && r <= i
      invariant rc == TotalRestarts(cs[..i])
    {
      assert cs[..i + 1][..i] == cs[..i];
      if cs[i].ready {
        r := r + 1;
      }
      rc := rc + cs[i].restartCount;
    }
    assert cs[..|cs|] == cs;
    k := KubePod(pod.name, r, |cs|, Phase(pod), rc);
  }

  /** A pod shows "n/n" exactly when every container is ready. */
  lemma {:induction false} AllReadyIff(cs: seq<ContainerStatus>)
    ensures ReadyCount(cs) <= |cs|
    ensures ReadyCount(cs) == |cs| <==> forall i :: 0 <= i < |cs| ==> cs[i].ready
    decreases |cs|
  {
    if |cs| > 0 {
      var front := cs[..|cs| - 1];
      AllReadyIff(front);
      assert forall i :: 0 <= i < |front| ==> front[i] == cs[i];
    }
  }

  // ----- The table cursor -----

  /** Down / `j`: the next row, wrapping from the last row to the first. A
      selection past the end of the list (left there after a refresh
      shrank it) also goes back to the first row. */
  function Down(sel: nat, len: nat): (r: nat)
    requires len > 0
    ensures r < len
    ensures sel < len ==> r == (sel + 1) % len
    ensures sel >= len ==> r == 0
  {
    if sel >= len - 1 then
      SmallMod(0, len);
      assert sel < len ==> (sel + 1) % len == len % len == 0 by { SelfMod(len); }
      0
    else
      SmallMod(sel + 1, len);
      sel + 1
  }

  /** Up / `k`: the previous row, wrapping from the first row to the last. */
  function Up(sel: nat, len: nat): (r: nat)
    requires len > 0
    ensures sel < len ==> r < len && r == (sel + len - 1) % len
    ensures sel >= len ==> r == sel - 1
  {
    if sel > 0 then sel - 1 else len - 1
  }

  /** A number below the modulus is its own remainder. */
  lemma SmallMod(x: nat, m: nat)
    requires x < m
    ensures x % m == x
  {
  }

  /** A modulus leaves no remainder on itself. */
  lemma SelfMod(m: nat)
    requires m > 0
    ensures m % m == 0
  {
  }

  /** Up undoes Down and Down undoes Up on an in-range selection. */
  lemma UpDownInverse(sel: nat, len: nat)
    requires sel < len
    ensures Up(Down(sel, len), len) == sel
    ensures Down(Up(sel, len), len) == sel
  {
  }

  /** Pressing Down `n` times from row `sel`. */
  function DownTimes(sel: nat, len: nat, n: nat): (r: nat)
    requires len > 0
    decreases n
  {
    if n == 0 then sel else Down(DownTimes(sel, len, n - 1), len)
  }

  /** Down walks the rows in order: from row `sel`, `n` presses that stay
      inside the list land on row `sel + n`. */
  lemma {:induction false} DownWalks(sel: nat, len: nat, n: nat)
    requires sel + n < len
    ensures DownTimes(sel, len, n) == sel + n
    decreases n
  {
    if n > 0 {
      DownWalks(sel, len, n - 1);
    }
  }

  /** Pressing Down `a` times and then `b` times is pressing it `a + b` times. */
  lemma {:induction false} DownTimesAdd(sel: nat, len: nat, a: nat, b: nat)
    requires len > 0
    ensures DownTimes(sel, len, a + b) == DownTimes(DownTimes(sel, len, a), len, b)
    decreases b
  {
    if b > 0 {
      DownTimesAdd(sel, len, a, b - 1);
    }
  }

  /** The cursor cycles: `len` presses of Down bring it back to where it
      started, having passed the last row and wrapped to the first. */
  lemma DownCycles(sel: nat, len: nat)
    requires sel < len
    ensures DownTimes(sel, len, len - sel) == 0
    ensures DownTimes(sel, len, len) == sel
  {
    DownWalks(sel, len, len - sel - 1);
    assert DownTimes(sel, len, len - sel) == Down(len - 1, len);
    DownTimesAdd(sel, len, len - sel, sel);
    if sel > 0 {
      DownWalks(0, len, sel);
    }
  }

  // ----- The cursor as the source computes it on usize -----

  /** Size of the machine word the cursor arithmetic runs on. */
  const WordModulus: nat := 0x1_0000_0000_0000_0000

  /** Down as written: `len - 1` is a usize subtraction, which wraps to the
      largest word value when the list is empty (in a release build). */
  function DownAsWritten(sel: nat, len: nat): (r: nat)
    requires sel < WordModulus && len < WordModulus
    ensures len > 0 ==> r == Down(sel, len)
  {
    var last := (len - 1) % WordModulus;
    if sel >= last then 0 else sel + 1
  }

  /** Up as written, with the same usize subtraction. */
  function UpAsWritten(sel: nat, len: nat): (r: nat)
    requires sel < WordModulus && len < WordModulus
    ensures len > 0 ==> r == Up(sel, len)
  {
    if sel > 0 then sel - 1 else (len - 1) % WordModulus
  }

  /** On an empty list (before the first refresh arrives, or in an empty
      namespace) either key moves the initial selection 0 to a row that does
      not exist; a debug build panics on the subtraction instead. */
  lemma EmptyListEscapes()
    ensures DownAsWritten(0, 0) == 1
    ensures UpAsWritten(0, 0) == WordModulus - 1
  {
  }

  /** The corrected Down move: the source's move on a non-empty list, and
      no move at all on an empty one. `HandleEventCorrected` uses it. */
  function MoveDown(sel: Option<nat>, len: nat): (r: Option<nat>)
    ensures sel.None? ==> r.None?
    ensures sel.Some? && len > 0 ==> r == Some(Down(sel.value, len))
    ensures len == 0 ==> r == sel
  {
    match sel
    case None => None
    case Some(s) => if len == 0 then sel else Some(Down(s, len))
  }

  /** The corrected Up move, in the same way. */
  function MoveUp(sel: Option<nat>, len: nat): (r: Option<nat>)
    ensures sel.None? ==> r.None?
    ensures sel.Some? && len > 0 ==> r == Some(Up(sel.value, len))
    ensures len == 0 ==> r == sel
  {
    match sel
    case None => None
    case Some(s) => if len == 0 then sel else Some(Up(s, len))
  }

  /** The corrected moves keep an in-range selection in range, and on an
      empty list they leave the selection where it was instead of
      inventing a row. */
  lemma MovesStayInRange(sel: nat, len: nat)
    ensures sel < len ==> MoveDown(Some(sel), len).value < len && MoveUp(Some(sel), len).value < len
    ensures len == 0 ==> MoveDown(Some(sel), len) == Some(sel) && MoveUp(Some(sel), len) == Some(sel)
  {
  }

  // ----- The browser's event loop, without the terminal -----

  datatype ActionItem = Home

  const MenuTitles: seq<string> := ["Pods"]

  /** `From<ActionItem> for usize`: the tab an action item selects. */
  function TabIndex(item: ActionItem): (i: nat)
    ensures i < |MenuTitles| && MenuTitles[i] == "Pods"
  {
    match item
    case Home => 0
  }

  datatype Key = Char(c: char) | DownArrow | UpArrow | OtherKey

  datatype Event = Input(key: Key) | Tick

  datatype UiEvent = RefreshPods(pods: seq<KubePod>)

  datatype UiState = UiState(pods: seq<KubePod>, selected: Option<nat>, active: ActionItem)

  /** The state before the first refresh: no pods, the first row selected. */
  const Initial: UiState := UiState([], Some(0), Home)

  /** The selection and the list length fit the machine word, as a `usize`
      does. */
  predicate WordSized(s: UiState) {
    |s.pods| < WordModulus && (s.selected.Some? ==> s.selected.value < WordModulus)
  }

  /** One key event, with the cursor arithmetic as written; `None` means the
      browser quits (`q`). With nothing selected the cursor keys do nothing. */
  function HandleEvent(s: UiState, e: Event): (r: Option<UiState>)
    requires WordSized(s)
    ensures r.None? <==> e == Input(Char('q'))
    ensures r.Some? ==> r.value.pods == s.pods && r.value.active == s.active
    ensures s.selected.None? && r.Some? ==> r.value == s
    ensures e in {Input(DownArrow), Input(Char('j'))} && s.selected.Some? ==>
      r == Some(s.(selected := Some(DownAsWritten(s.selected.value, |s.pods|))))
    ensures e in {Input(UpArrow), Input(Char('k'))} && s.selected.Some? ==>
      r == Some(s.(selected := Some(UpAsWritten(s.selected.value, |s.pods|))))
    ensures e !in {Input(DownArrow), Input(Char('j')), Input(UpArrow), Input(Char('k')), Input(Char('q'))} ==> r == Some(s)
  {
    match e
    case Tick => Some(s)
    case Input(key) =>
      match key
      case Char('q') => None
      case DownArrow => Some(s.(selected := DownSelected(s)))
      case Char('j') => Some(s.(selected := DownSelected(s)))
      case UpArrow => Some(s.(selected := UpSelected(s)))
      case Char('k') => Some(s.(selected := UpSelected(s)))
      case _ => Some(s)
  }

  function DownSelected(s: UiState): Option<nat>
    requires WordSized(s)
  {
    match s.selected
    case None => None
    case Some(sel) => Some(DownAsWritten(sel, |s.pods|))
  }

  function UpSelected(s: UiState): Option<nat>
    requires WordSized(s)
  {
    match s.selected
    case None => None
    case Some(sel) => Some(UpAsWritten(sel, |s.pods|))
  }

  /** One key event with the corrected moves: the same handler except that
      the cursor keys leave the selection alone on an empty list. */
  function HandleEventCorrected(s: UiState, e: Event): (r: Option<UiState>)
    ensures r.None? <==> e == Input(Char('q'))
    ensures r.Some? ==> r.value.pods == s.pods && r.value.active == s.active
    ensures e in {Input(DownArrow), Input(Char('j'))} ==> r == Some(s.(selected := MoveDown(s.selected, |s.pods|)))
    ensures e in {Input(UpArrow), Input(Char('k'))} ==> r == Some(s.(selected := MoveUp(s.selected, |s.pods|)))
    ensures e !in {Input(DownArrow), Input(Char('j')), Input(UpArrow), Input(Char('k')), Input(Char('q'))} ==> r == Some(s)
  {
    match e
    case Tick => Some(s)
    case Input(key) =>
      match key
      case Char('q') => None
      case DownArrow => Some(s.(selected := MoveDown(s.selected, |s.pods|)))
      case Char('j') => Some(s.(selected := MoveDown(s.selected, |s.pods|)))
      case UpArrow => Some(s.(selected := MoveUp(s.selected, |s.pods|)))
      case Char('k') => Some(s.(selected := MoveUp(s.selected, |s.pods|)))
      case _ => Some(s)
  }

  /** The correction changes nothing once the list has a row: on a non-empty
      list the two handlers agree on every event. */
  lemma HandlersAgreeOnNonEmpty(s: UiState, e: Event)
    requires WordSized(s) && |s.pods| > 0
    ensures HandleEvent(s, e) == HandleEventCorrected(s, e)
  {
  }

  /** At start-up the list is empty and row 0 is selected. Down as written
      then selects row 1 and Up row 2^64-1, neither of which exists; the
      corrected handler keeps row 0. */
  lemma StartupCursorKeys()
    ensures WordSized(Initial)
    ensures HandleEvent(Initial, Input(DownArrow)) == Some(Initial.(selected := Some(1)))
    ensures HandleEvent(Initial, Input(UpArrow)) == Some(Initial.(selected := Some(WordModulus - 1)))
    ensures HandleEventCorrected(Initial, Input(DownArrow)) == Some(Initial)
    ensures HandleEventCorrected(Initial, Input(UpArrow)) == Some(Initial)
  {
    EmptyListEscapes();
  }

  /** `RefreshPods` replaces the list wholesale and touches nothing else. */
  function HandleUiEvent(s: UiState, e: UiEvent): (r: UiState)
    ensures r.pods == e.pods
    ensures r.selected == s.selected && r.active == s.active
  {
    match e
    case RefreshPods(pods) => s.(pods := pods)
  }

  /** Key events keep an in-range selection in range. */
  lemma EventsKeepSelectionInRange(s: UiState, e: Event)
    requires s.selected.Some? && s.selected.value < |s.pods| < WordModulus
    ensures WordSized(s)
    ensures HandleEvent(s, e).Some? ==>
      HandleEvent(s, e).value.selected.Some? && HandleEvent(s, e).value.selected.value < |s.pods|
  {
  }

  /** With the corrected moves no key press selects a row that does not
      exist: an in-range selection stays in range, and on an empty list the
      selection is left where it was. */
  lemma CorrectedKeysNeverEscape(s: UiState, e: Event)
    requires s.selected.Some?
    ensures HandleEventCorrected(s, e).Some? && s.selected.value < |s.pods| ==>
      HandleEventCorrected(s, e).value.selected.Some? && HandleEventCorrected(s, e).value.selected.value < |s.pods|
    ensures HandleEventCorrected(s, e).Some? && |s.pods| == 0 ==>
      HandleEventCorrected(s, e).value.selected == s.selected
  {
    MovesStayInRange(s.selected.value, |s.pods|);
  }

  /** After a refresh shrinks the list below the selection, one Down brings
      the selection back to the first row. */
  lemma DownAfterShrinkingRefresh(s: UiState, pods: seq<KubePod>)
    requires s.selected.Some? && s.selected.value < WordModulus
    requires 0 < |pods| <= s.selected.value
    ensures WordSized(HandleUiEvent(s, RefreshPods(pods)))
    ensures HandleEvent(HandleUiEvent(s, RefreshPods(pods)), Input(DownArrow)).value.selected == Some(0)
  {
  }

  // ----- Table rows -----

  type Row = seq<string>

  /** The "ready/total" cell. */
  function ReadyCell(ready: int, count: int): string {
    Decimal.IntToString(ready) + "/" + Decimal.IntToString(count)
  }

  function RenderRow(p: KubePod): Row {
    [p.name, ReadyCell(p.ready, p.containerCount), Decimal.IntToString(p.restartCount), p.status]
  }

  /** `render_pods`: one four-cell row per pod, in list order. */
  function RenderPods(pods: seq<KubePod>): (rows: seq<Row>)
    ensures |rows| == |pods|
    ensures forall i :: 0 <= i < |rows| ==> |rows[i]| == 4
  {
    seq(|pods|, i requires 0 <= i < |pods| => RenderRow(pods[i]))
  }

  /** Position of the first `c` in `s`, if any. */
  function IndexOf(s: string, c: char): (r: Option<nat>)
    ensures r.Some? ==> r.value < |s| && s[r.value] == c && forall j :: 0 <= j < r.value ==> s[j] != c
    ensures r.None? ==> forall j :: 0 <= j < |s| ==> s[j] != c
    decreases |s|
  {
    if |s| == 0 then None
    else if s[0] == c then Some(0)
    else match IndexOf(s[1..], c)
      case None => None
      case Some(k) => Some(k + 1)
  }

  /** Reads a "ready/total" cell back into its two numbers. */
  function ParseReadyCell(cell: string): Option<(int, int)> {
    match IndexOf(cell, '/')
    case None => None
    case Some(k) =>
      match (Decimal.ParseInt(cell[..k]), Decimal.ParseInt(cell[k + 1..]))
      case (Some(a), Some(b)) => Some((a, b))
      case _ => None
  }

  lemma ReadyCellRoundTrip(ready: int, count: int)
    ensures ParseReadyCell(ReadyCell(ready, count)) == Some((ready, count))
  {
    var a := Decimal.IntToString(ready);
    var cell := ReadyCell(ready, count);
    assert forall j :: 0 <= j < |a| ==> cell[j] == a[j] != '/';
    assert cell[|a|] == '/';
    assert IndexOf(cell, '/') == Some(|a|);
    assert cell[..|a|] == a;
    assert cell[|a| + 1..] == Decimal.IntToString(count);
    Decimal.ParseIntToString(ready);
    Decimal.ParseIntToString(count);
  }

  /** Each rendered row shows its pod faithfully: the name, the ready and
      container counts, the restart total and the phase can all be read back. */
  lemma RenderedRowsReadBack(pods: seq<KubePod>)
    ensures forall i :: 0 <= i < |pods| ==>
      var row := RenderPods(pods)[i];
      && row[0] == pods[i].name
      && ParseReadyCell(row[1]) == Some((pods[i].ready, pods[i].containerCount))
      && Decimal.ParseInt(row[2]) == Some(pods[i].restartCount)
      && row[3] == pods[i].status
  {
    forall i | 0 <= i < |pods|
      ensures ParseReadyCell(RenderPods(pods)[i][1]) == Some((pods[i].ready, pods[i].containerCount))
      ensures Decimal.ParseInt(RenderPods(pods)[i][2]) == Some(pods[i].restartCount)
    {
      ReadyCellRoundTrip(pods[i].ready, pods[i].containerCount);
      Decimal.ParseIntToString(pods[i].restartCount);
    }
  }
}
