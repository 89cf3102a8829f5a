/**
 * The class-split logger (`qrzlogger.py`): call-sign clean-up, the FETCH
 * reply reader, the QSO form of `UIManager` with its session defaults, and
 * the reader of ADIF log files.
 */
module QrzLogger {
  import opened Wrappers
  import opened Text
  import opened Adif
  import opened Logbook
  import opened Callsign
  import opened Draft

  // ---------------------------------------------------------------------
  // CallSignUtils.remove_indicators

  /** `call.endswith(("/P", "/MM", "/M", "/QRP"))`. */
  predicate HasIndicator(call: string)
  {
    EndsWith(call, "/P") || EndsWith(call, "/MM") || EndsWith(call, "/M") || EndsWith(call, "/QRP")
  }

  /** `s.rsplit(c, 1)[0]`: the text before the last `c`, or all of `s`. */
  function BeforeLast(s: string, c: char): (r: string)
    ensures c in s ==> r == s[..LastIndexOf(s, c)]
    ensures c !in s ==> r == s
  {
    var i := LastIndexOf(s, c);
    if i < 0 then s else s[..i]
  }

  /** The call without an operating-condition suffix and without a leading `\w+/` prefix. */
  function RemoveIndicators(call: string): (r: string)
    ensures '/' !in call ==> r == call
    ensures |r| <= |call|
  {
    IndicatorHasSlash(call);
    var cleaned := if HasIndicator(call) then BeforeLast(call, '/') else call;
    if '/' in cleaned then StripDxPrefix(cleaned) else cleaned
  }

  lemma IndicatorHasSlash(call: string)
    ensures HasIndicator(call) ==> '/' in call
  {
    if EndsWith(call, "/P") || EndsWith(call, "/M") { assert call[|call| - 2] == '/'; }
    if EndsWith(call, "/MM") { assert call[|call| - 3] == '/'; }
    if EndsWith(call, "/QRP") { assert call[|call| - 4] == '/'; }
  }

  /** The four suffixes the rule removes. */
  predicate Indicator(suffix: string)
  {
    suffix == "P" || suffix == "MM" || suffix == "M" || suffix == "QRP"
  }

  lemma IndicatorEnds(root: string, suffix: string)
    requires Indicator(suffix)
    ensures HasIndicator(root + "/" + suffix)
  {
    var s := root + "/" + suffix;
    assert s[|s| - |suffix| - 1..] == "/" + suffix;
  }

  /** A suffix is cut at its `/`; what is left then loses a `\w+/` prefix if it still holds a `/`. */
  lemma SuffixCut(head: string, suffix: string)
    requires Indicator(suffix)
    ensures RemoveIndicators(head + "/" + suffix) == if '/' in head then StripDxPrefix(head) else head
  {
    IndicatorEnds(head, suffix);
    assert head + "/" + suffix == head + ['/'] + suffix;
    LastIndexOfSplit(head, '/', suffix);
    assert (head + "/" + suffix)[..|head|] == head;
  }

  /** A suffix after a slash-free call is removed together with its `/`. */
  lemma RemoveSuffix(root: string, suffix: string)
    requires '/' !in root && Indicator(suffix)
    ensures RemoveIndicators(root + "/" + suffix) == root
  {
    SuffixCut(root, suffix);
  }

  /** `DL/W1AW/P` style: both the prefix and the suffix go. */
  lemma RemovePrefixAndSuffix(prefix: string, root: string, suffix: string)
    requires prefix != "" && AllWordChars(prefix) && AllWordChars(root) && Indicator(suffix)
    ensures RemoveIndicators(prefix + "/" + root + "/" + suffix) == root
  {
    var head := prefix + "/" + root;
    SuffixCut(head, suffix);
    assert head[|prefix|] == '/';
    StripPrefixOf(prefix, root);
  }

  /** A call ending in neither `P` nor `M` only loses a `\w+/` prefix. */
  lemma PrefixOnly(call: string)
    requires call != "" && call[|call| - 1] != 'P' && call[|call| - 1] != 'M'
    ensures RemoveIndicators(call) == StripDxPrefix(call)
  {
    assert !HasIndicator(call);
  }

  /**
   * Only one prefix is removed per call: `DL/F/W1AW` becomes `F/W1AW`, which
   * becomes `W1AW`, so the clean-up is not idempotent.
   */
  lemma NotIdempotent(p1: string, p2: string, root: string)
    requires p1 != "" && AllWordChars(p1) && p2 != "" && AllWordChars(p2)
    requires root != "" && root[|root| - 1] != 'P' && root[|root| - 1] != 'M'
    ensures RemoveIndicators(p1 + "/" + p2 + "/" + root) == p2 + "/" + root
    ensures RemoveIndicators(p2 + "/" + root) == root
    ensures RemoveIndicators(RemoveIndicators(p1 + "/" + p2 + "/" + root)) != RemoveIndicators(p1 + "/" + p2 + "/" + root)
  {
    var tail := p2 + "/" + root;
    var call := p1 + "/" + p2 + "/" + root;
    assert call == p1 + "/" + tail;
    assert call[|call| - 1] == root[|root| - 1] && tail[|tail| - 1] == root[|root| - 1];
    PrefixOnly(call);
    PrefixOnly(tail);
    StripPrefixOf(p1, tail);
    StripPrefixOf(p2, root);
    assert |root| < |tail|;
  }

  // ---------------------------------------------------------------------
  // UIManager: the QSO form

  /** The `qso_defaults` section of the configuration. */
  datatype QsoDefaults = QsoDefaults(band: string, mode: string, txPwr: string, rstRcvd: string, rstSent: string)

  /** `session_defaults`: the values that seed a fresh draft. */
  datatype Session = Session(freq: string, mode: string, txPwr: string)

  /** The field names of this revision's draft, in the order they are asked. */
  const DraftKeys: seq<string> := ["freq", "rst_rcvd", "rst_sent", "mode", "tx_pwr", "qso_date", "time_on"]

  /** The draft of a first entry: session defaults, configured reports, and the current UTC date and time. */
  function FirstDraft(s: Session, rstRcvd: string, rstSent: string, date: string, time: string): (d: seq<Field>)
    ensures Keys(d) == DraftKeys
  {
    [ Field("freq", "Frequency", s.freq),
      Field("rst_rcvd", "RST Received", rstRcvd),
      Field("rst_sent", "RST Sent", rstSent),
      Field("mode", "Mode", s.mode),
      Field("tx_pwr", "Power (in W)", s.txPwr),
      Field("qso_date", "QSO Date", date),
      Field("time_on", "QSO Time", time) ]
  }

  /** The freq, mode and tx_pwr values of a draft (its first, fourth and fifth fields). */
  function SessionOf(d: seq<Field>): Session
    requires Keys(d) == DraftKeys
  {
    Session(d[0].value, d[3].value, d[4].value)
  }


  /** How one pass over the form ends. */
  datatype Query = Entered(draft: seq<Field>) | QuitRequested | InputEnded(partial: seq<Field>)

  /** `quit` and `exit`, in any letter case, end the program. */
  predicate IsQuit(answer: string)
  {
    Lower(answer) == "quit" || Lower(answer) == "exit"
  }

  predicate NoQuit(answers: seq<string>)
  {
    forall j :: 0 <= j < |answers| ==> !IsQuit(answers[j])
  }

  /**
   * The loop of `query_qso_data` from field `i` on, field `i` taking answer
   * `i`: a quit word ends the program; running out of input ends the pass
   * with the fields edited so far. The number is the answers read in all.
   */
  function Ask(qs: seq<Field>, i: nat, answers: seq<string>): (r: (Query, nat))
    requires i <= |qs|
    decreases |qs| - i
  {
    if i == |qs| then (Entered(qs), i)
    else if i >= |answers| then (InputEnded(qs), i)
    else if IsQuit(answers[i]) then (QuitRequested, i + 1)
    else Ask(qs[i := Answer(qs[i], answers[i])], i + 1, answers)
  }

  /** A pass reads one answer per field at most, and never more than there are. */
  lemma {:induction false} AskUsed(qs: seq<Field>, i: nat, answers: seq<string>)
    requires i <= |qs| && i <= |answers|
    ensures i <= Ask(qs, i, answers).1 <= |answers| && Ask(qs, i, answers).1 <= |qs|
    decreases |qs| - i
  {
    if i < |qs| && i < |answers| && !IsQuit(answers[i]) {
      AskUsed(qs[i := Answer(qs[i], answers[i])], i + 1, answers);
    }
  }

  /**
   * A pass completes exactly when there is an answer for every field and
   * none is a quit word; every field then holds its non-empty answer or
   * keeps its value, and names and prompts are unchanged.
   */
  lemma {:induction false} AskEntered(qs: seq<Field>, i: nat, answers: seq<string>)
    requires i <= |qs| && i <= |answers|
    ensures Ask(qs, i, answers).0.Entered? <==> |answers| >= |qs| && NoQuit(answers[i..|qs|])
    ensures Ask(qs, i, answers).0.Entered? ==>
              Ask(qs, i, answers).1 == |qs| && Ask(qs, i, answers).0.draft == Apply(qs, i, |qs|, answers)
    decreases |qs| - i
  {
    if i == |qs| {
      ApplyNone(qs, i, answers);
    } else if i < |answers| {
      if !IsQuit(answers[i]) {
        AskEntered(qs[i := Answer(qs[i], answers[i])], i + 1, answers);
        if |answers| >= |qs| {
          ApplyStep(qs, i, |qs|, answers);
          assert answers[i..|qs|] == [answers[i]] + answers[i + 1..|qs|];
        }
      } else if |answers| >= |qs| {
        assert answers[i..|qs|][0] == answers[i];
      }
    }
  }

  /**
   * A fresh draft taken as offered, an empty answer at every field, comes
   * through the form unchanged, and its freq, mode and tx_pwr are the
   * session defaults that seeded it: logging it hands them on unchanged.
   */
  lemma SessionRoundTrip(s: Session, rstRcvd: string, rstSent: string, date: string, time: string, answers: seq<string>)
    requires |answers| >= |DraftKeys| && forall j :: 0 <= j < |DraftKeys| ==> answers[j] == ""
    ensures var d := FirstDraft(s, rstRcvd, rstSent, date, time);
            Ask(d, 0, answers) == (Entered(d), |d|) && SessionOf(d) == s
  {
    var d := FirstDraft(s, rstRcvd, rstSent, date, time);
    AskEntered(d, 0, answers);
    forall j | 0 <= j < |d| ensures !IsQuit(answers[0..|d|][j]) {
      assert answers[0..|d|][j] == "";
    }
    ApplyEmpty(d, 0, |d|, answers);
  }

  /** Running out of input inside the form keeps the answers given so far and leaves the rest unchanged. */
  lemma {:induction false} AskInputEnded(qs: seq<Field>, i: nat, answers: seq<string>)
    requires i <= |qs| && i <= |answers|
    ensures Ask(qs, i, answers).0.InputEnded? ==>
              Ask(qs, i, answers).1 == |answers| < |qs| && NoQuit(answers[i..])
              && Ask(qs, i, answers).0.partial == Apply(qs, i, |answers|, answers)
    decreases |qs| - i
  {
    if i < |qs| {
      if i == |answers| {
        ApplyNone(qs, i, answers);
      } else if !IsQuit(answers[i]) {
        AskInputEnded(qs[i := Answer(qs[i], answers[i])], i + 1, answers);
        if Ask(qs, i, answers).0.InputEnded? {
          ApplyStep(qs, i, |answers|, answers);
          assert answers[i..] == [answers[i]] + answers[i + 1..];
        }
      }
    }
  }

  /** A pass from the first field reads no more answers than there are, and the draft it leaves keeps its shape. */
  lemma AskShape(qs: seq<Field>, answers: seq<string>)
    ensures Ask(qs, 0, answers).1 <= |answers|
    ensures Ask(qs, 0, answers).0.Entered? ==> SameShape(Ask(qs, 0, answers).0.draft, qs)
    ensures Ask(qs, 0, answers).0.InputEnded? ==> SameShape(Ask(qs, 0, answers).0.partial, qs)
  {
    AskUsed(qs, 0, answers);
    AskEntered(qs, 0, answers);
    AskInputEnded(qs, 0, answers);
  }

  /** A quit word ends the pass at the first one given. */
  lemma {:induction false} AskQuit(qs: seq<Field>, i: nat, answers: seq<string>)
    requires i <= |qs| && i <= |answers|
    ensures Ask(qs, i, answers).0.QuitRequested? ==>
              var used := Ask(qs, i, answers).1;
              i < used <= |answers| && IsQuit(answers[used - 1]) && NoQuit(answers[i..used - 1])
    decreases |qs| - i
  {
    if i < |qs| && i < |answers| && !IsQuit(answers[i]) {
      AskQuit(qs[i := Answer(qs[i], answers[i])], i + 1, answers);
      var used := Ask(qs, i, answers).1;
      if Ask(qs, i, answers).0.QuitRequested? {
        assert answers[i..used - 1] == [answers[i]] + answers[i + 1..used - 1];
      }
    }
  }

  /** The outcome of one upload attempt from the form. */
  datatype Outcome = Logged | NotLogged | Aborted | Exited

  class UIManager {
    const station: string
    const rstRcvd: string
    const rstSent: string
    /** The draft kept between forms; it is not cleared after a successful upload. */
    var qso: Option<seq<Field>>
    var sessionDefaults: Session
    /** The lines appended to the audit log. */
    var log: seq<string>

    ghost predicate Valid()
      reads this
    {
      qso.Some? ==> Keys(qso.value) == DraftKeys
    }

    /** The session defaults start as the configured band's frequency, mode and power. */
    constructor(station: string, defaults: QsoDefaults, bandfreqs: map<string, string>)
      requires defaults.band in bandfreqs
      ensures Valid() && qso.None? && log == []
      ensures this.station == station && rstRcvd == defaults.rstRcvd && rstSent == defaults.rstSent
      ensures sessionDefaults == Session(bandfreqs[defaults.band], defaults.mode, defaults.txPwr)
    {
      this.station := station;
      rstRcvd := defaults.rstRcvd;
      rstSent := defaults.rstSent;
      qso := None;
      sessionDefaults := Session(bandfreqs[defaults.band], defaults.mode, defaults.txPwr);
      log := [];
    }

    /** The draft the form starts from: the kept one, or a fresh one from the session defaults. */
    function Questions(date: string, time: string): (qs: seq<Field>)
      reads this
      requires Valid()
      ensures Keys(qs) == DraftKeys
    {
      if qso.Some? then qso.value else FirstDraft(sessionDefaults, rstRcvd, rstSent, date, time)
    }

    /** `query_qso_data`: one answer per field, edited in place. */
    method QueryQsoData(date: string, time: string, answers: seq<string>) returns (q: Query, used: nat)
      requires Valid()
      ensures (q, used) == Ask(Questions(date, time), 0, answers)
    {
      var questions := Questions(date, time);
      ghost var start := questions;
      var i := 0;
      while i < |questions|
        invariant 0 <= i <= |questions| && i <= |answers|
        invariant Ask(start, 0, answers) == Ask(questions, i, answers)
      {
        if i == |answers| {
          return InputEnded(questions), i;
        }
        var answer := answers[i];
        if IsQuit(answer) {
          return QuitRequested, i + 1;
        }
        ghost var before := questions;
        if answer != "" {
          questions := questions[i := questions[i].(value := answer)];
        }
        assert questions == before[i := Answer(before[i], answer)];
        i := i + 1;
      }
      return Entered(questions), i;
    }

    /**
     * `confirm_and_submit_qso`: one answer; `Y` in either case uploads the
     * draft, and only an extracted log id counts as logged and replaces the
     * session defaults with the draft's freq, mode and tx_pwr.
     */
    method ConfirmAndSubmitQso(call: string, answer: Option<string>, reply: Option<string>) returns (o: Outcome)
      requires Valid() && qso.Some?
      modifies this`sessionDefaults, this`log
      ensures Valid()
      ensures var upload := answer.Some? && Upper(answer.value) == "Y";
              var sub := Submit(Encode(station, call, qso.value), reply);
              && (o == Aborted <==> answer.None?)
              && (o == Logged <==> upload && sub.logid.Some?)
              && o != Exited
              && log == old(log) + (if upload then AuditLines(sub) else [])
              && sessionDefaults == if o == Logged then SessionOf(qso.value) else old(sessionDefaults)
    {
      if answer.None? {
        return Aborted;
      }
      var a := Upper(answer.value);
      if a == "Y" {
        var draft := qso.value;
        var sub := Submit(Encode(station, call, draft), reply);
        log := log + AuditLines(sub);
        if sub.logid.Some? {
          sessionDefaults := sessionDefaults.(freq := draft[0].value);
          sessionDefaults := sessionDefaults.(mode := draft[3].value);
          sessionDefaults := sessionDefaults.(txPwr := draft[4].value);
          return Logged;
        }
      }
      return NotLogged;
    }

    /**
     * `show_qso_form`: one pass over the form, then the upload question.
     * The draft is kept whatever the outcome; input ending inside the form
     * keeps the partial edits only when the form was editing a kept draft.
     */
    method ShowQsoForm(call: string, date: string, time: string, answers: seq<string>, reply: Option<string>)
      returns (o: Outcome, used: nat)
      requires Valid()
      modifies this`qso, this`sessionDefaults, this`log
      ensures Valid()
      ensures var (q, u) := Ask(old(Questions(date, time)), 0, answers);
              && (q.QuitRequested? ==> o == Exited && used == u && qso == old(qso))
              && (q.InputEnded? ==>
                    o == Aborted && used == u && qso == (if old(qso).Some? then Some(q.partial) else None))
              && (!q.Entered? ==> sessionDefaults == old(sessionDefaults) && log == old(log))
              && (q.Entered? ==>
                    qso == Some(q.draft) && used == (if u < |answers| then u + 1 else u)
                    && o != Exited && (o == Aborted <==> u >= |answers|)
                    && (o == Logged <==>
                          u < |answers| && Upper(answers[u]) == "Y"
                          && Submit(Encode(station, call, q.draft), reply).logid.Some?)
                    && log == old(log) + (if u < |answers| && Upper(answers[u]) == "Y"
                                          then AuditLines(Submit(Encode(station, call, q.draft), reply))
                                          else [])
                    && sessionDefaults == (if o == Logged then SessionOf(q.draft) else old(sessionDefaults))
                    && (old(qso).None? && q.draft == old(Questions(date, time)) ==> sessionDefaults == old(sessionDefaults)))
    {
      ghost var start := Questions(date, time);
      AskShape(start, answers);
      var q, u := QueryQsoData(date, time, answers);
      match q {
        case QuitRequested =>
          return Exited, u;
        case InputEnded(partial) =>
          if qso.Some? {
            ShapeKeys(partial, start);
            qso := Some(partial);
          }
          return Aborted, u;
        case Entered(draft) =>
          ShapeKeys(draft, start);
          ghost var seeded := qso.None? && draft == start;
          qso := Some(draft);
          var answer := if u < |answers| then Some(answers[u]) else None;
          assert seeded ==> SessionOf(draft) == sessionDefaults;
          o := ConfirmAndSubmitQso(call, answer, reply);
          used := if u < |answers| then u + 1 else u;
          assert log == old(log) + (if u < |answers| && Upper(answers[u]) == "Y"
                                    then AuditLines(Submit(Encode(station, call, draft), reply))
                                    else []);
          assert sessionDefaults == (if o == Logged then SessionOf(draft) else old(sessionDefaults));
      }
    }
  }

  // ---------------------------------------------------------------------
  // UIManager.parse_qsos_from_log

  /** What one line of a log file contributes once stripped. */
  datatype LogLine = TagLine(tag: string, value: string) | BlankLine | OtherLine

  /** What one line of a log file contributes: it is stripped first. */
  function ReadLogLine(raw: string): (l: LogLine)
    ensures l.BlankLine? <==> Strip(raw) == ""
    ensures l.TagLine? <==> StartsWith(Strip(raw), "<") && '>' in Strip(raw)
  {
    ReadStripped(Strip(raw))
  }

  /**
   * A stripped line that starts with `<` and holds a `>` is a tag line: the
   * tag is what lies between the `<` and the first `>`, lower-cased; the
   * value runs to the next `<`, or, when there is none, to one character
   * before the end (a slice stopping at -1), and is stripped.
   */
  function ReadStripped(line: string): (l: LogLine)
    ensures l.BlankLine? <==> line == ""
    ensures l.TagLine? <==> StartsWith(line, "<") && '>' in line
  {
    if |line| > 0 && line[0] == '<' && '>' in line then
      var tagEnd := IndexOf(line, '>');
      var valueStart := tagEnd + 1;
      var valueEnd := FindFrom(line, '<', valueStart);
      var value :=
        if valueEnd >= 0 then line[valueStart..valueEnd]
        else if valueStart < |line| - 1 then line[valueStart..|line| - 1]
        else "";
      TagLine(Lower(line[1..tagEnd]), Strip(value))
    else if line == "" then BlankLine
    else OtherLine
  }

  /** The records yielded so far and the record being filled. */
  datatype Acc = Acc(done: seq<map<string, string>>, current: map<string, string>)

  /** One line: a tag line sets a key, a blank line closes a non-empty record, anything else is skipped. */
  function Feed(acc: Acc, raw: string): Acc
  {
    match ReadLogLine(raw)
    case TagLine(tag, value) => acc.(current := acc.current[tag := value])
    case BlankLine => if acc.current != map[] then Acc(acc.done + [acc.current], map[]) else acc
    case OtherLine => acc
  }

  function Run(acc: Acc, lines: seq<string>): Acc
  {
    if lines == [] then acc else Feed(Run(acc, lines[..|lines| - 1]), lines[|lines| - 1])
  }

  /** The records left once the file ends: a last non-empty record is yielded too. */
  function Flush(acc: Acc): seq<map<string, string>>
  {
    if acc.current != map[] then acc.done + [acc.current] else acc.done
  }

  /** The records `parse_qsos_from_log` yields for the lines of a file. */
  function LogRecords(lines: seq<string>): seq<map<string, string>>
  {
    Flush(Run(Acc([], map[]), lines))
  }

  /** The generator of `parse_qsos_from_log`, collected into a list. */
  method ParseQsosFromLog(lines: seq<string>) returns (qsos: seq<map<string, string>>)
    ensures qsos == LogRecords(lines)
  {
    qsos := [];
    var current: map<string, string> := map[];
    for i := 0 to |lines|
      invariant Acc(qsos, current) == Run(Acc([], map[]), lines[..i])
    {
      assert lines[..i + 1][..i] == lines[..i];
      match ReadLogLine(lines[i]) {
        case TagLine(tag, value) =>
          current := current[tag := value];
        case BlankLine =>
          if current != map[] {
            qsos := qsos + [current];
            current := map[];
          }
        case OtherLine =>
      }
    }
    assert lines[..|lines|] == lines;
    if current != map[] {
      qsos := qsos + [current];
    }
  }

  /** Records are only ever closed when non-empty. */
  lemma {:induction false} RunNonEmpty(lines: seq<string>)
    ensures forall r :: r in Run(Acc([], map[]), lines).done ==> r != map[]
  {
    if lines != [] {
      RunNonEmpty(lines[..|lines| - 1]);
    }
  }

  /** No record yielded is empty. */
  lemma LogRecordsNonEmpty(lines: seq<string>)
    ensures forall r :: r in LogRecords(lines) ==> r != map[]
  {
    RunNonEmpty(lines);
  }

  lemma {:induction false} RunAppend(acc: Acc, xs: seq<string>, ys: seq<string>)
    ensures Run(acc, xs + ys) == Run(Run(acc, xs), ys)
    decreases |ys|
  {
    if ys == [] {
      assert xs + ys == xs;
    } else {
      assert (xs + ys)[..|xs + ys| - 1] == xs + ys[..|ys| - 1];
      RunAppend(acc, xs, ys[..|ys| - 1]);
    }
  }

  /** Records already yielded stay in front of everything later lines yield. */
  lemma {:induction false} RunKeepsDone(d: seq<map<string, string>>, ys: seq<string>)
    ensures Run(Acc(d, map[]), ys) == Acc(d + Run(Acc([], map[]), ys).done, Run(Acc([], map[]), ys).current)
    decreases |ys|
  {
    if ys != [] {
      RunKeepsDone(d, ys[..|ys| - 1]);
    }
  }

  /** A blank line separates two parts of a file that are read independently. */
  lemma LogRecordsSplit(a: seq<string>, blank: string, c: seq<string>)
    requires Strip(blank) == ""
    ensures LogRecords(a + [blank] + c) == LogRecords(a) + LogRecords(c)
  {
    RunAppend(Acc([], map[]), a + [blank], c);
    assert (a + [blank])[..|a|] == a;
    var mid := Run(Acc([], map[]), a + [blank]);
    assert mid == Acc(LogRecords(a), map[]);
    RunKeepsDone(LogRecords(a), c);
  }

  /** The first `>` of `<t>body` closes the tag when `t` holds none. */
  lemma TagPrefix(t: string, body: string)
    requires '>' !in t
    ensures var line := "<" + t + ">" + body;
            IndexOf(line, '>') == |t| + 1 && line[1..|t| + 1] == t && line[|t| + 2..] == body
  {
    var line := "<" + t + ">" + body;
    assert line == ("<" + t) + ['>'] + body;
    assert '>' !in "<" + t;
    IndexOfSplit("<" + t, '>', body);
  }

  lemma FindAfter(line: string, start: nat, v: string, rest: string)
    requires start <= |line| && line[start..] == v + ['<'] + rest && '<' !in v
    ensures FindFrom(line, '<', start) == start + |v|
  {
    IndexOfSplit(v, '<', rest);
  }

  /** A tag line whose value is followed by another `<` keeps the whole value. */
  lemma TagLineValue(t: string, v: string, rest: string)
    requires '>' !in t && '<' !in v && (rest == "" || !IsSpace(rest[|rest| - 1]))
    ensures ReadLogLine("<" + t + ">" + v + "<" + rest) == TagLine(Lower(t), Strip(v))
  {
    var line := "<" + t + ">" + v + "<" + rest;
    assert Strip(line) == line by {
      assert line[|line| - 1] == if rest == "" then '<' else rest[|rest| - 1];
      StripTrimmed(line);
    }
    StrippedTagValue(t, v, rest);
  }

  lemma StrippedTagValue(t: string, v: string, rest: string)
    requires '>' !in t && '<' !in v
    ensures ReadStripped("<" + t + ">" + v + "<" + rest) == TagLine(Lower(t), Strip(v))
  {
    var line := "<" + t + ">" + v + "<" + rest;
    var e := |t| + 1;
    var f := |t| + 2 + |v|;
    assert line[..e] == "<" + t && line[1..e] == t && line[e] == '>';
    assert line[e + 1..f] == v && line[f] == '<';
    IndexOfAt(line, '>', e);
    FindFromAt(line, '<', e + 1, f);
    TagBetween(line, e, f);
  }

  /** A tag line whose value ends at a `<` found at `f`. */
  lemma TagBetween(line: string, e: nat, f: nat)
    requires 1 <= e < |line| && line[0] == '<' && IndexOf(line, '>') == e
    requires e + 1 <= f && FindFrom(line, '<', e + 1) == f
    ensures ReadStripped(line) == TagLine(Lower(line[1..e]), Strip(line[e + 1..f]))
  {
  }

  /** A tag line with no `<` after its value loses the value's last character. */
  lemma LastCharDropped(t: string, v: string)
    requires '>' !in t && '<' !in v && v != "" && !IsSpace(v[|v| - 1])
    ensures ReadLogLine("<" + t + ">" + v) == TagLine(Lower(t), Strip(v[..|v| - 1]))
  {
    var line := "<" + t + ">" + v;
    assert line[|line| - 1] == v[|v| - 1];
    StripTrimmed(line);
    TagPrefix(t, v);
    assert line[|t| + 2..|line| - 1] == v[..|v| - 1];
  }

  /** The audit log this program writes yields no records: its lines start with a status label. */
  lemma {:induction false} AuditLogYieldsNothing(lines: seq<string>, ids: seq<Option<string>>, payloads: seq<string>)
    requires |ids| == |lines| == |payloads|
    requires forall i :: 0 <= i < |lines| ==> lines[i] == AuditLine(ids[i], payloads[i])
    ensures Run(Acc([], map[]), lines) == Acc([], map[])
    ensures LogRecords(lines) == []
  {
    if lines != [] {
      var k := |lines| - 1;
      AuditLogYieldsNothing(lines[..k], ids[..k], payloads[..k]);
      var line := lines[k];
      assert line[0] == (if ids[k].Some? then 'S' else 'F');
      StripKeepsVisibleHead(line);
    }
  }
}
