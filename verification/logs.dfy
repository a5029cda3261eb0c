/** The log-tailing side of the tool: choosing pods, giving each a colour,
    classifying every decoded log line and deciding what the terminal shows.
    Output is a sequence of abstract render records rather than terminal
    escape sequences, and the regular-expression engine is a parameter. */
module Logs {
  import opened Wrappers
  import opened Text
  import Utf8
  import Seqs

  type PodName = string

  /** A 24-bit terminal colour. */
  datatype Color = Rgb(r: int, g: int, b: int)

  /** The fixed palette a pod's colour is drawn from. */
  const Palette: seq<Color> := [
    Rgb(0, 255, 0), Rgb(128, 128, 0), Rgb(0, 255, 255), Rgb(255, 192, 203),
    Rgb(245, 120, 250), Rgb(221, 160, 221), Rgb(154, 205, 50), Rgb(230, 230, 120)
  ]

  /** `get_color`: a uniform draw from `[0, |Palette|)`, truncated to an
      index. The draw itself is the parameter `draw`. */
  function GetColor(draw: real): (c: Color)
    requires 0.0 <= draw < |Palette| as real
    ensures c in Palette
    ensures exists i :: 0 <= i < |Palette| && i as real <= draw < (i + 1) as real && c == Palette[i]
  {
    var i := draw.Floor;
    assert i as real <= draw < (i + 1) as real;
    Palette[i]
  }

  predicate DrawsInRange(draws: seq<real>) {
    forall i :: 0 <= i < |draws| ==> 0.0 <= draws[i] < |Palette| as real
  }

  /** The regular-expression engine: which patterns compile, and whether a
      compiled pattern matches somewhere in a line (search, not anchored). */
  datatype RegexEngine = RegexEngine(compiles: string -> bool, isMatch: (string, string) -> bool)

  /** The options of the `logs` command that reach a tailer. */
  datatype LogsOpts = LogsOpts(namespace: string, tailLength: int, highlight: string, filter: bool)

  /** The arguments of one `stream_logs` call: what a tailer is spawned with. */
  datatype Spawn = Spawn(namespace: string, pod: PodName, tailLines: int, color: Color, highlight: string, filter: bool)

  /** How a line is drawn: bold red, bold yellow, or with the colour reset. */
  datatype Category = Error | Highlighted | Plain

  /** The coloured pod-name prefix printed before a line in normal mode. */
  datatype Source = Source(pod: PodName, color: Color)

  datatype Render = Render(prefix: Option<Source>, category: Category, text: string)

  datatype Outcome = Suppressed | Emitted(record: Render)

  /** The records an outcome adds to the output: none or one. */
  function Shown(o: Outcome): seq<Render> {
    match o
    case Suppressed => []
    case Emitted(r) => [r]
  }

  /** The line mentions an error, by case-sensitive substring search. */
  predicate HasErrorMarker(line: string) {
    Contains(line, "ERROR") || Contains(line, "error") || Contains(line, "Error")
  }

  /** The highlight is configured (non-empty) and its pattern matches. */
  predicate Highlights(highlight: string, line: string, isMatch: (string, string) -> bool) {
    highlight != [] && isMatch(highlight, line)
  }

  /** The highlight test as a line predicate, the filter-mode selection. */
  function HighlightTest(highlight: string, isMatch: (string, string) -> bool): string -> bool {
    line => Highlights(highlight, line, isMatch)
  }

  /** The category of a line in normal mode: errors first, then highlights. */
  function CategoryOf(line: string, highlight: string, isMatch: (string, string) -> bool): (c: Category)
    ensures c == Error <==> HasErrorMarker(line)
    ensures c == Highlighted <==> !HasErrorMarker(line) && Highlights(highlight, line, isMatch)
    ensures c == Plain <==> !HasErrorMarker(line) && !Highlights(highlight, line, isMatch)
  {
    if HasErrorMarker(line) then Error
    else if Highlights(highlight, line, isMatch) then Highlighted
    else Plain
  }

  /** What one decoded line becomes. In filter mode only highlighted lines
      are shown, without the pod prefix and without the error check; in
      normal mode every line is shown after the coloured pod name. */
  function Classify(line: string, highlight: string, filter: bool, source: Source,
                    isMatch: (string, string) -> bool): (o: Outcome)
    ensures filter ==> (o.Emitted? <==> Highlights(highlight, line, isMatch))
    ensures filter && o.Emitted? ==> o.record == Render(None, Highlighted, line)
    ensures !filter ==> o.Emitted? && o.record.prefix == Some(source) && o.record.text == line
    ensures !filter ==> o.record.category == CategoryOf(line, highlight, isMatch)
  {
    if filter then
      if Highlights(highlight, line, isMatch) then Emitted(Render(None, Highlighted, line)) else Suppressed
    else
      Emitted(Render(Some(source), CategoryOf(line, highlight, isMatch), line))
  }

  /** Filter mode never looks for error markers: a line with an error marker
      is treated exactly like the same decision without one. */
  lemma FilterIgnoresErrors(line: string, other: string, highlight: string, source: Source,
                            isMatch: (string, string) -> bool)
    requires isMatch(highlight, line) == isMatch(highlight, other)
    ensures Classify(line, highlight, true, source, isMatch).Emitted?
        == Classify(other, highlight, true, source, isMatch).Emitted?
  {
  }

  /** An empty highlight never highlights, even when the engine says the
      empty pattern matches every line. */
  lemma EmptyHighlightNeverHighlights(line: string, filter: bool, source: Source,
                                      isMatch: (string, string) -> bool)
    requires forall l :: isMatch("", l)
    ensures filter ==> Classify(line, "", filter, source, isMatch) == Suppressed
    ensures !filter ==> Classify(line, "", filter, source, isMatch).record.category != Highlighted
  {
  }

  /** Error precedence: a line that mentions "error" and matches the
      highlight is still shown as an error in normal mode. */
  lemma ErrorBeatsHighlight(source: Source, isMatch: (string, string) -> bool)
    requires isMatch("pattern-xyz", "2024 error: pattern-xyz seen")
    ensures Classify("2024 error: pattern-xyz seen", "pattern-xyz", false, source, isMatch).record.category == Error
  {
    var line := "2024 error: pattern-xyz seen";
    assert line[5..10] == "error" by {
      assert line[5] == 'e' && line[6] == 'r' && line[7] == 'r' && line[8] == 'o' && line[9] == 'r';
    }
    OccursAtContains(line, "error", 5);
  }

  /** The markers are case-sensitive: a mixed-case spelling is not an error. */
  lemma MarkersAreCaseSensitive()
    ensures !HasErrorMarker("eRRor")
  {
    NoCharNoContains("eRRor", "ERROR", 0);
    NoCharNoContains("eRRor", "Error", 0);
    forall i: nat ensures !OccursAt("eRRor", "error", i) {
      if i == 0 {
        assert "eRRor"[0..5][1] == 'R' != "error"[1];
      }
    }
    ContainsIffOccurs("eRRor", "error");
  }

  // ----- One tailer: the stream of raw lines and what it produces -----

  type RawLine = seq<Utf8.byte>

  /** How the cluster's line stream stopped after its last line. */
  datatype StreamEnd = Closed | Broken(reason: string)

  datatype LogStream = LogStream(lines: seq<RawLine>, end: StreamEnd)

  datatype TailError =
    | ConnectFailed(reason: string)   // the log stream could not be opened
    | InvalidHighlight                // the highlight pattern does not compile
    | NotUtf8(index: nat)             // line `index` is not valid UTF-8
    | StreamFailed(reason: string)    // the stream itself reported an error

  datatype TailStatus = Ended | Failed(error: TailError)

  datatype TailResult = TailResult(out: seq<Render>, status: TailStatus)

  /** Index of the first line that does not decode, or the number of lines. */
  function FirstInvalid(lines: seq<RawLine>): (k: nat)
    ensures k <= |lines|
    ensures forall j :: 0 <= j < k ==> Utf8.Decode(lines[j]).Some?
    ensures k < |lines| ==> Utf8.Decode(lines[k]).None?
    decreases |lines|
  {
    if |lines| == 0 || Utf8.Decode(lines[0]).None? then 0
    else 1 + FirstInvalid(lines[1..])
  }

  /** The text of the first `k` lines, all of which decode. */
  function DecodedPrefix(lines: seq<RawLine>, k: nat): (texts: seq<string>)
    requires k <= |lines|
    requires forall j :: 0 <= j < k ==> Utf8.Decode(lines[j]).Some?
    ensures |texts| == k
  {
    seq(k, j requires 0 <= j < k => Utf8.Decode(lines[j]).value)
  }

  function SourceOf(spawn: Spawn): Source {
    Source(spawn.pod, spawn.color)
  }

  /** The records a run of decoded lines produces, in arrival order. */
  function Records(spawn: Spawn, texts: seq<string>, isMatch: (string, string) -> bool): seq<Render>
    decreases |texts|
  {
    if |texts| == 0 then []
    else
      var last := texts[|texts| - 1];
      Records(spawn, texts[..|texts| - 1], isMatch) +
        Shown(Classify(last, spawn.highlight, spawn.filter, SourceOf(spawn), isMatch))
  }

  /** One step of the tailer: decoding one more line adds that line's
      records, if any, after the earlier ones. */
  lemma RecordsGrow(spawn: Spawn, lines: seq<RawLine>, i: nat, isMatch: (string, string) -> bool)
    requires i < |lines|
    requires forall j :: 0 <= j <= i ==> Utf8.Decode(lines[j]).Some?
    ensures Records(spawn, DecodedPrefix(lines, i + 1), isMatch)
         == Records(spawn, DecodedPrefix(lines, i), isMatch)
            + Shown(Classify(Utf8.Decode(lines[i]).value, spawn.highlight, spawn.filter, SourceOf(spawn), isMatch))
  {
    assert DecodedPrefix(lines, i + 1)[..i] == DecodedPrefix(lines, i);
  }

  /** What a tailer produces, stated declaratively: nothing if the stream
      cannot be opened or the highlight does not compile; otherwise the
      records of the lines before the first undecodable one, and a status
      saying why it stopped. */
  function Tail(spawn: Spawn, connection: Result<LogStream>, re: RegexEngine): TailResult {
    match connection
    case Failure(e) => TailResult([], Failed(ConnectFailed(e)))
    case Success(stream) =>
      if !re.compiles(spawn.highlight) then TailResult([], Failed(InvalidHighlight))
      else
        var k := FirstInvalid(stream.lines);
        var out := Records(spawn, DecodedPrefix(stream.lines, k), re.isMatch);
        if k < |stream.lines| then TailResult(out, Failed(NotUtf8(k)))
        else match stream.end
          case Closed => TailResult(out, Ended)
          case Broken(reason) => TailResult(out, Failed(StreamFailed(reason)))
  }

  /** `stream_logs`: pulls lines one by one, decodes each, classifies it,
      and stops at the first line that is not UTF-8 or when the stream ends. */
  method StreamLogs(spawn: Spawn, connection: Result<LogStream>, re: RegexEngine) returns (out: seq<Render>, status: TailStatus)
    ensures TailResult(out, status) == Tail(spawn, connection, re)
  {
    if connection.Failure? {
      return [], Failed(ConnectFailed(connection.error));
    }
    if !re.compiles(spawn.highlight) {
      return [], Failed(InvalidHighlight);
    }
    var lines := connection.value.lines;
    out := [];
    var i := 0;
    while i < |lines|
      invariant 0 <= i <= |lines|
      invariant forall j :: 0 <= j < i ==> Utf8.Decode(lines[j]).Some?
      invariant out == Records(spawn, DecodedPrefix(lines, i), re.isMatch)
    {
      var decoded := Utf8.Decode(lines[i]);
      if decoded.None? {
        FirstInvalidAt(lines, i);
        return out, Failed(NotUtf8(i));
      }
      RecordsGrow(spawn, lines, i, re.isMatch);
      out := out + Shown(Classify(decoded.value, spawn.highlight, spawn.filter, SourceOf(spawn), re.isMatch));
      i := i + 1;
    }
    FirstInvalidAt(lines, i);
    match connection.value.end
    case Closed => status := Ended;
    case Broken(reason) => status := Failed(StreamFailed(reason));
  }

  /** The first undecodable line is the first line after a run of decodable
      ones that does not decode, or the end of the stream. */
  lemma FirstInvalidAt(lines: seq<RawLine>, i: nat)
    requires i <= |lines|
    requires forall j :: 0 <= j < i ==> Utf8.Decode(lines[j]).Some?
    requires i < |lines| ==> Utf8.Decode(lines[i]).None?
    ensures FirstInvalid(lines) == i
  {
  }

  /** Normal mode: every decoded line yields exactly one record, prefixed
      with the pod and its colour, carrying the line's text, in order. */
  lemma {:induction false} NormalModeRecords(spawn: Spawn, texts: seq<string>, isMatch: (string, string) -> bool)
    requires !spawn.filter
    ensures |Records(spawn, texts, isMatch)| == |texts|
    ensures forall j :: 0 <= j < |texts| ==>
      Records(spawn, texts, isMatch)[j] == Render(Some(SourceOf(spawn)), CategoryOf(texts[j], spawn.highlight, isMatch), texts[j])
    decreases |texts|
  {
    if |texts| > 0 {
      var front := texts[..|texts| - 1];
      NormalModeRecords(spawn, front, isMatch);
      assert forall j :: 0 <= j < |front| ==> front[j] == texts[j];
    }
  }

  /** Filter mode: the records are exactly the highlighted lines, in order,
      each shown as Highlighted without a prefix. */
  lemma {:induction false} FilterModeRecords(spawn: Spawn, texts: seq<string>, isMatch: (string, string) -> bool)
    requires spawn.filter
    ensures var kept := Seqs.Filter(texts, HighlightTest(spawn.highlight, isMatch));
      && |Records(spawn, texts, isMatch)| == |kept|
      && forall j :: 0 <= j < |kept| ==> Records(spawn, texts, isMatch)[j] == Render(None, Highlighted, kept[j])
    decreases |texts|
  {
    if |texts| > 0 {
      var p := HighlightTest(spawn.highlight, isMatch);
      var front := texts[..|texts| - 1];
      var last := texts[|texts| - 1];
      FilterModeRecords(spawn, front, isMatch);
      assert front + [last] == texts;
      Seqs.FilterSnoc(front, last, p);
      var added := Shown(Classify(last, spawn.highlight, spawn.filter, SourceOf(spawn), isMatch));
      assert Records(spawn, texts, isMatch) == Records(spawn, front, isMatch) + added;
      FilterModeStep(Records(spawn, front, isMatch), Seqs.Filter(front, p), last, p(last), added);
    }
  }

  /** The step of `FilterModeRecords`: appending the next line's records,
      a highlighted line or nothing, keeps the records in step with the
      kept lines. */
  lemma FilterModeStep(records: seq<Render>, kept: seq<string>, last: string, keep: bool, added: seq<Render>)
    requires |records| == |kept|
    requires forall j :: 0 <= j < |kept| ==> records[j] == Render(None, Highlighted, kept[j])
    requires added == if keep then [Render(None, Highlighted, last)] else []
    ensures var more := kept + (if keep then [last] else []);
      && |records + added| == |more|
      && forall j :: 0 <= j < |more| ==> (records + added)[j] == Render(None, Highlighted, more[j])
  {
  }

  /** Normal-mode tailer output: one prefixed record per line up to the first
      undecodable one, whose text is exactly the bytes of that line. */
  lemma TailNormalMode(spawn: Spawn, stream: LogStream, re: RegexEngine)
    requires !spawn.filter && re.compiles(spawn.highlight)
    ensures var r := Tail(spawn, Success(stream), re);
      && |r.out| == FirstInvalid(stream.lines)
      && forall j :: 0 <= j < |r.out| ==>
           && r.out[j].prefix == Some(Source(spawn.pod, spawn.color))
           && Utf8.Encode(r.out[j].text) == stream.lines[j]
           && r.out[j].category == CategoryOf(r.out[j].text, spawn.highlight, re.isMatch)
  {
    var k := FirstInvalid(stream.lines);
    var texts := DecodedPrefix(stream.lines, k);
    var out := Tail(spawn, Success(stream), re).out;
    assert out == Records(spawn, texts, re.isMatch);
    NormalModeRecords(spawn, texts, re.isMatch);
    forall j | 0 <= j < k
      ensures && out[j].prefix == Some(Source(spawn.pod, spawn.color))
              && Utf8.Encode(out[j].text) == stream.lines[j]
              && out[j].category == CategoryOf(out[j].text, spawn.highlight, re.isMatch)
    {
      assert out[j] == Render(Some(SourceOf(spawn)), CategoryOf(texts[j], spawn.highlight, re.isMatch), texts[j]);
      Utf8.EncodeDecode(stream.lines[j]);
    }
  }

  /** Filter-mode tailer output is an order-preserving subsequence of the
      decoded lines, all Highlighted and unprefixed. */
  lemma TailFilterMode(spawn: Spawn, stream: LogStream, re: RegexEngine)
    requires spawn.filter && re.compiles(spawn.highlight)
    ensures var r := Tail(spawn, Success(stream), re);
      var texts := DecodedPrefix(stream.lines, FirstInvalid(stream.lines));
      && Seqs.IsSubsequence(TextsOf(r.out), texts)
      && forall j :: 0 <= j < |r.out| ==>
           && r.out[j].prefix.None? && r.out[j].category == Highlighted
           && Highlights(spawn.highlight, r.out[j].text, re.isMatch)
  {
    var texts := DecodedPrefix(stream.lines, FirstInvalid(stream.lines));
    var out := Tail(spawn, Success(stream), re).out;
    FilterModeRecords(spawn, texts, re.isMatch);
    var kept := Seqs.Filter(texts, HighlightTest(spawn.highlight, re.isMatch));
    assert TextsOf(out) == kept;
    forall j | 0 <= j < |out| ensures Highlights(spawn.highlight, out[j].text, re.isMatch) {
      assert kept[j] in kept;
    }
  }

  function TextsOf(records: seq<Render>): (texts: seq<string>)
    ensures |texts| == |records|
  {
    seq(|records|, j requires 0 <= j < |records| => records[j].text)
  }

  /** The UTF-8 stop rule: once line `k` fails to decode, nothing after it
      matters. Two streams that agree up to and including that line give
      the same output and the same failure. */
  lemma StopsAtFirstInvalid(spawn: Spawn, s1: LogStream, s2: LogStream, re: RegexEngine, k: nat)
    requires k < |s1.lines| && k < |s2.lines|
    requires s1.lines[..k + 1] == s2.lines[..k + 1]
    requires Utf8.Decode(s1.lines[k]).None?
    ensures Tail(spawn, Success(s1), re) == Tail(spawn, Success(s2), re)
    ensures re.compiles(spawn.highlight) ==> Tail(spawn, Success(s1), re).status == Failed(NotUtf8(FirstInvalid(s1.lines)))
  {
    var k1 := FirstInvalid(s1.lines);
    assert k1 <= k;
    SameFirstInvalid(s1.lines, s2.lines, k);
    assert DecodedPrefix(s1.lines, k1) == DecodedPrefix(s2.lines, k1) by {
      forall j | 0 <= j < k1 ensures s1.lines[j] == s2.lines[j] {
        assert s1.lines[..k + 1][j] == s2.lines[..k + 1][j];
      }
    }
  }

  lemma {:induction false} SameFirstInvalid(a: seq<RawLine>, b: seq<RawLine>, k: nat)
    requires k < |a| && k < |b| && a[..k + 1] == b[..k + 1]
    requires Utf8.Decode(a[k]).None?
    ensures FirstInvalid(a) == FirstInvalid(b) <= k
    decreases k
  {
    assert a[0] == a[..k + 1][0] == b[..k + 1][0] == b[0];
    if k > 0 && Utf8.Decode(a[0]).Some? {
      assert a[1..][..k] == a[..k + 1][1..] == b[..k + 1][1..] == b[1..][..k];
      SameFirstInvalid(a[1..], b[1..], k - 1);
    }
  }

  // ----- Choosing pods -----

  /** The pod-name pattern as a name predicate. */
  function PatternTest(re: RegexEngine, pattern: string): PodName -> bool {
    name => re.isMatch(pattern, name)
  }

  /** `collect_pods`: the listed pod names the pattern matches, in listing
      order; a failed listing is passed on. An empty result is a success. */
  method CollectPods(listing: Result<seq<PodName>>, pattern: string, re: RegexEngine) returns (r: Result<seq<PodName>>)
    requires re.compiles(pattern)
    ensures listing.Failure? ==> r == Failure(listing.error)
    ensures listing.Success? ==> r == Success(Seqs.Filter(listing.value, PatternTest(re, pattern)))
  {
    if listing.Failure? {
      return Failure(listing.error);
    }
    var names := listing.value;
    ghost var p := PatternTest(re, pattern);
    var matching := [];
    for i := 0 to |names|
      invariant matching == Seqs.Filter(names[..i], p)
    {
      Seqs.FilterGrows(names, i, p);
      assert p(names[i]) == re.isMatch(pattern, names[i]);
      if re.isMatch(pattern, names[i]) {
        matching := matching + [names[i]];
      }
    }
    assert names[..|names|] == names;
    return Success(matching);
  }

  /** What pod selection keeps: exactly the matching names, in order, each
      once when the listing names each pod once; the whole listing exactly
      when every name matches. */
  lemma CollectedPodsAreMatches(names: seq<PodName>, pattern: string, re: RegexEngine)
    ensures var kept := Seqs.Filter(names, PatternTest(re, pattern));
      && Seqs.IsSubsequence(kept, names)
      && (forall i :: 0 <= i < |names| ==> (names[i] in kept <==> re.isMatch(pattern, names[i])))
      && (Seqs.NoDuplicates(names) ==> Seqs.NoDuplicates(kept))
      && (kept == names <==> forall i :: 0 <= i < |names| ==> re.isMatch(pattern, names[i]))
  {
    var p := PatternTest(re, pattern);
    Seqs.FilterKeepsAll(names, p);
    if Seqs.NoDuplicates(names) {
      Seqs.FilterNoDuplicates(names, p);
    }
  }

  /** `list_pods`: numbers the listed pods from 0 in listing order. */
  method ListPods(listing: Result<seq<PodName>>) returns (r: Result<map<nat, PodName>>)
    ensures listing.Failure? ==> r == Failure(listing.error)
    ensures listing.Success? ==> r.Success?
    ensures listing.Success? ==> forall i: nat :: i in r.value <==> i < |listing.value|
    ensures listing.Success? ==> forall i :: 0 <= i < |listing.value| ==> r.value[i] == listing.value[i]
  {
    if listing.Failure? {
      return Failure(listing.error);
    }
    var pods := listing.value;
    var podMap: map<nat, PodName> := map[];
    for i := 0 to |pods|
      invariant forall j: nat :: j in podMap <==> j < i
      invariant forall j :: 0 <= j < i ==> podMap[j] == pods[j]
    {
      podMap := podMap[i := pods[i]];
    }
    return Success(podMap);
  }

  /** `select_pod`: looks the typed index up in the numbered list. A listed
      index gives one tailer for that pod with the command's options; an
      index with no entry gives none, and that is still a success. */
  method SelectPod(opts: LogsOpts, listing: Result<seq<PodName>>, index: nat, draw: real) returns (r: Result<Option<Spawn>>)
    requires 0.0 <= draw < |Palette| as real
    ensures listing.Failure? ==> r == Failure(listing.error)
    ensures listing.Success? ==> r.Success? && (r.value.Some? <==> index < |listing.value|)
    ensures listing.Success? && index < |listing.value| ==>
      r.value.value == Spawn(opts.namespace, listing.value[index], opts.tailLength, GetColor(draw), opts.highlight, opts.filter)
  {
    var pods :- ListPods(listing);
    if index in pods {
      var c := GetColor(draw);
      return Success(Some(Spawn(opts.namespace, pods[index], opts.tailLength, c, opts.highlight, opts.filter)));
    }
    return Success(None);
  }

  // ----- Fan-out -----

  /** `follow_logs`: one tailer per selected pod, in selection order, each
      with its own colour draw and the command's shared options. */
  method FollowLogs(opts: LogsOpts, pattern: string, listing: Result<seq<PodName>>, draws: seq<real>, re: RegexEngine)
    returns (r: Result<seq<Spawn>>)
    requires re.compiles(pattern)
    requires DrawsInRange(draws)
    requires listing.Success? ==> |Seqs.Filter(listing.value, PatternTest(re, pattern))| <= |draws|
    ensures listing.Failure? ==> r == Failure(listing.error)
    ensures listing.Success? ==> r.Success?
    ensures listing.Success? ==>
      var selected := Seqs.Filter(listing.value, PatternTest(re, pattern));
      && |r.value| == |selected|
      && forall i :: 0 <= i < |selected| ==>
           r.value[i] == Spawn(opts.namespace, selected[i], opts.tailLength, GetColor(draws[i]), opts.highlight, opts.filter)
  {
    var pods :- CollectPods(listing, pattern, re);
    assert pods == Seqs.Filter(listing.value, PatternTest(re, pattern));
    assert |pods| <= |draws|;
    var tasks := [];
    for i := 0 to |pods|
      invariant |tasks| == i
      invariant forall j :: 0 <= j < |pods| ==> 0.0 <= draws[j] < |Palette| as real
      invariant forall j :: 0 <= j < i ==>
        tasks[j] == Spawn(opts.namespace, pods[j], opts.tailLength, GetColor(draws[j]), opts.highlight, opts.filter)
    {
      var c := GetColor(draws[i]);
      tasks := tasks + [Spawn(opts.namespace, pods[i], opts.tailLength, c, opts.highlight, opts.filter)];
    }
    return Success(tasks);
  }

  /** Every spawned tailer is coloured from the palette, and the plan names
      each selected pod once when the listing does. */
  lemma SpawnPlanShape(opts: LogsOpts, plan: seq<Spawn>, selected: seq<PodName>, draws: seq<real>)
    requires DrawsInRange(draws) && |selected| <= |draws| && |plan| == |selected|
    requires forall i :: 0 <= i < |selected| ==>
      plan[i] == Spawn(opts.namespace, selected[i], opts.tailLength, GetColor(draws[i]), opts.highlight, opts.filter)
    ensures forall i :: 0 <= i < |plan| ==> plan[i].color in Palette
    ensures Seqs.NoDuplicates(selected) ==> forall i, j :: 0 <= i < j < |plan| ==> plan[i] != plan[j]
  {
  }

  /** Waiting for every tailer: each tailer's result depends on its own
      stream only, so one failing stream leaves the others' output intact. */
  function JoinAll(plan: seq<Spawn>, streams: seq<Result<LogStream>>, re: RegexEngine): (results: seq<TailResult>)
    requires |streams| == |plan|
    ensures |results| == |plan|
  {
    seq(|plan|, i requires 0 <= i < |plan| => Tail(plan[i], streams[i], re))
  }

  /** Partial-failure isolation: replacing one tailer's stream, by a broken
      one say, changes no other tailer's result. */
  lemma FailureIsIsolated(plan: seq<Spawn>, streams: seq<Result<LogStream>>, j: nat, other: Result<LogStream>, re: RegexEngine)
    requires |streams| == |plan| && j < |plan|
    ensures forall i :: 0 <= i < |plan| && i != j ==>
      JoinAll(plan, streams[j := other], re)[i] == JoinAll(plan, streams, re)[i]
  {
  }
}
