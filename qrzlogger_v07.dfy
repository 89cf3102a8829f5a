/**
 * The single-class logger, version 0.7.0 (`src/qrzlogger/__main__.py`):
 * its own suffix rule and call-sign check, the ADIF build loop of
 * `send_qso`, the QSO form with the band-to-frequency override, and the
 * confirm loop that retries uploads and keeps the recent-QSO list.
 */
module QrzLoggerV07 {
  import opened Wrappers
  import opened Text
  import opened Adif
  import opened Logbook
  import opened Callsign
  import opened Draft
  import ClassSplit = QrzLogger

  // ---------------------------------------------------------------------
  // remove_indicators

  /** `call.endswith(("/P", "/M", "/QRP"))`. */
  predicate HasIndicator(call: string)
  {
    EndsWith(call, "/P") || EndsWith(call, "/M") || EndsWith(call, "/QRP")
  }

  /** `re.sub(r'/\w$', "", s)`: a final `/` and one word character are removed. */
  function DropSlashLetter(s: string): (r: string)
    ensures r == s || (|s| >= 2 && s[|s| - 2] == '/' && IsWordChar(s[|s| - 1]) && r == s[..|s| - 2])
  {
    if |s| >= 2 && s[|s| - 2] == '/' && IsWordChar(s[|s| - 1]) then s[..|s| - 2] else s
  }

  /** The call without a one-letter `/P` or `/M` suffix and without a leading `\w+/` prefix. */
  function RemoveIndicators(call: string): (r: string)
    ensures '/' !in call ==> r == call
    ensures |r| <= |call|
  {
    var cleaned := if HasIndicator(call) then DropSlashLetter(call) else call;
    assert '/' !in call ==> cleaned == call;
    if '/' in cleaned then StripDxPrefix(cleaned) else cleaned
  }

  /** `/P` and `/M` go with their slash; what is left loses a `\w+/` prefix if it still holds a `/`. */
  lemma OneLetterSuffix(head: string, x: char)
    requires x == 'P' || x == 'M'
    ensures RemoveIndicators(head + ['/', x]) == if '/' in head then StripDxPrefix(head) else head
  {
    var call := head + ['/', x];
    assert HasIndicator(call) by {
      assert call[|call| - 2..] == ['/', x];
    }
    assert DropSlashLetter(call) == head by {
      assert IsWordChar(x);
      assert call[|call| - 2] == '/' && call[|call| - 1] == x;
      assert call[..|call| - 2] == head;
    }
  }

  /** `DL/W1AW/P` becomes `W1AW`. */
  lemma PrefixAndSuffix(prefix: string, root: string, x: char)
    requires prefix != "" && AllWordChars(prefix) && AllWordChars(root) && (x == 'P' || x == 'M')
    ensures RemoveIndicators(prefix + "/" + root + ['/', x]) == root
  {
    var head := prefix + "/" + root;
    OneLetterSuffix(head, x);
    assert head[|prefix|] == '/';
    StripPrefixOf(prefix, root);
  }

  /** `W1AW/QRP` becomes `QRP`: the suffix rule leaves it and the prefix rule removes the call. */
  lemma QrpKeepsOnlySuffix(root: string)
    requires root != "" && AllWordChars(root)
    ensures RemoveIndicators(root + "/QRP") == "QRP"
  {
    var call := root + "/QRP";
    assert call[|call| - 4..] == "/QRP";
    assert call[|call| - 2] == 'R';
    assert call == root + "/" + "QRP";
    StripPrefixOf(root, "QRP");
  }

  /** `W1AW/MM` becomes `MM`: `/MM` is not a suffix this revision knows. */
  lemma MaritimeKeepsOnlySuffix(root: string)
    requires root != "" && AllWordChars(root)
    ensures RemoveIndicators(root + "/MM") == "MM"
  {
    var call := root + "/MM";
    assert call[|call| - 1] == 'M' && call[|call| - 2] == 'M';
    assert !HasIndicator(call);
    assert call == root + "/" + "MM";
    StripPrefixOf(root, "MM");
  }

  /** The two revisions disagree on `/QRP`: the class-split one keeps the call, this one the suffix. */
  lemma RevisionsDisagreeOnQrp(root: string)
    requires root != "" && AllWordChars(root)
    ensures ClassSplit.RemoveIndicators(root + "/QRP") == root
    ensures RemoveIndicators(root + "/QRP") == "QRP"
  {
    assert '/' !in root by { assert !IsWordChar('/'); }
    assert root + "/QRP" == root + "/" + "QRP";
    ClassSplit.RemoveSuffix(root, "QRP");
    QrpKeepsOnlySuffix(root);
  }

  // ---------------------------------------------------------------------
  // get_input_callsign

  /** At least three characters, and letters and digits once the slashes are removed. */
  predicate IsValidCallsign(s: string)
  {
    |s| > 2 && IsAlnum(Remove(s, '/'))
  }

  /** Upper-casing keeps a valid call sign valid. */
  lemma UpperValid(s: string)
    requires IsValidCallsign(s)
    ensures IsValidCallsign(Upper(s))
  {
    var r := Remove(s, '/');
    var u := Remove(Upper(s), '/');
    forall c | c in u ensures IsAlnumChar(c) {
      var i :| 0 <= i < |Upper(s)| && Upper(s)[i] == c;
      assert s[i] != '/';
      assert s[i] in r;
    }
    var c0 := r[0];
    assert c0 in s && c0 != '/';
    var i :| 0 <= i < |s| && s[i] == c0;
    assert Upper(s)[i] in u;
  }

  /** How reading a call sign ends: a call, or the program stops (`quit` or end of input). */
  datatype CallInput = Call(call: string) | CallQuit

  /** An input that is re-prompted. */
  predicate Rejected(input: string)
  {
    input != "quit" && !IsValidCallsign(input)
  }

  /** `get_input_callsign`: prompts until a valid call sign, returned upper-cased. */
  method GetInputCallsign(inputs: seq<string>) returns (r: CallInput, used: nat)
    ensures used <= |inputs|
    ensures r.Call? ==>
              1 <= used && IsValidCallsign(inputs[used - 1]) && inputs[used - 1] != "quit"
              && r.call == Upper(inputs[used - 1]) && IsValidCallsign(r.call)
              && forall j :: 0 <= j < used - 1 ==> Rejected(inputs[j])
    ensures r.CallQuit? ==>
              (used == |inputs| && forall j :: 0 <= j < used ==> Rejected(inputs[j]))
              || (1 <= used && inputs[used - 1] == "quit" && forall j :: 0 <= j < used - 1 ==> Rejected(inputs[j]))
  {
    used := 0;
    while used < |inputs|
      invariant used <= |inputs|
      invariant forall j :: 0 <= j < used ==> Rejected(inputs[j])
    {
      var call := inputs[used];
      used := used + 1;
      if call == "quit" {
        return CallQuit, used;
      }
      if !(|call| > 2 && IsAlnum(Remove(call, '/'))) {
        continue;
      }
      UpperValid(call);
      return Call(Upper(call)), used;
    }
    return CallQuit, used;
  }

  // ---------------------------------------------------------------------
  // query_qso_data

  /** The `qso_defaults` section of the configuration. */
  datatype QsoDefaults = QsoDefaults(band: string, mode: string, rstRcvd: string, rstSent: string, txPwr: string)

  /** The field names of this revision's draft, in the order they are asked. */
  const DraftKeys: seq<string> :=
    ["qso_date", "time_on", "band", "freq", "mode", "rst_rcvd", "rst_sent", "tx_pwr", "comment"]

  /** The first draft: date and time now, configured defaults, empty frequency and comment. */
  function FirstDraft(d: QsoDefaults, date: string, time: string): (fs: seq<Field>)
    ensures Keys(fs) == DraftKeys
    ensures fs[3].value == "" && fs[8].value == ""
  {
    [ Field("qso_date", "QSO Date", date),
      Field("time_on", "QSO Time", time),
      Field("band", "Band", d.band),
      Field("freq", "Frequency", ""),
      Field("mode", "Mode", d.mode),
      Field("rst_rcvd", "RST Received", d.rstRcvd),
      Field("rst_sent", "RST Sent", d.rstSent),
      Field("tx_pwr", "Power (in W)", d.txPwr),
      Field("comment", "Comment", "") ]
  }

  /** How one pass over the form ends; end of input stops the program like `quit`. */
  datatype Query = Entered(draft: seq<Field>) | Cancelled | QueryQuit

  /** `c` cancels and `quit` stops, exactly as typed. */
  predicate Stops(answer: string)
  {
    answer == "c" || answer == "quit"
  }

  predicate NoStop(answers: seq<string>)
  {
    forall j :: 0 <= j < |answers| ==> !Stops(answers[j])
  }

  lemma NoStopCons(answers: seq<string>, i: nat, j: nat)
    requires i < j <= |answers| && !Stops(answers[i]) && NoStop(answers[i + 1..j])
    ensures NoStop(answers[i..j])
  {
    assert forall k :: 0 < k < j - i ==> answers[i..j][k] == answers[i + 1..j][k - 1];
  }

  /** After the band question: freq takes the configured frequency of the band, if there is one. */
  function BandFreq(qs: seq<Field>, band: string, bandfreqs: map<string, string>): (r: seq<Field>)
    ensures SameShape(r, qs)
  {
    var k := KeyIndex(qs, "freq");
    if band in bandfreqs && k >= 0 then qs[k := qs[k].(value := bandfreqs[band])] else qs
  }

  /** Field `i` takes `answer`; after the band field the frequency follows the band. */
  function FormStep(qs: seq<Field>, i: nat, answer: string, bandfreqs: map<string, string>): (r: seq<Field>)
    requires i < |qs|
    ensures SameShape(r, qs)
  {
    var edited := qs[i := Answer(qs[i], answer)];
    if edited[i].key == "band" then BandFreq(edited, edited[i].value, bandfreqs) else edited
  }

  /**
   * The loop of `query_qso_data` from field `i` on, field `i` taking answer
   * `i`. The number is the answers read in all.
   */
  function Ask(qs: seq<Field>, i: nat, answers: seq<string>, bandfreqs: map<string, string>): (r: (Query, nat))
    requires i <= |qs|
    decreases |qs| - i
  {
    if i == |qs| then (Entered(qs), i)
    else if i >= |answers| then (QueryQuit, i)
    else if answers[i] == "c" then (Cancelled, i + 1)
    else if answers[i] == "quit" then (QueryQuit, i + 1)
    else Ask(FormStep(qs, i, answers[i], bandfreqs), i + 1, answers, bandfreqs)
  }

  /** How `Ask` goes on from field `i` when that field has an answer that does not stop the pass. */
  lemma AskStep(qs: seq<Field>, i: nat, answers: seq<string>, bandfreqs: map<string, string>)
    requires i < |qs| && i < |answers| && !Stops(answers[i])
    ensures Ask(qs, i, answers, bandfreqs) == Ask(FormStep(qs, i, answers[i], bandfreqs), i + 1, answers, bandfreqs)
  {
  }

  /** A pass past the last field has completed. */
  lemma AskDone(qs: seq<Field>, answers: seq<string>, bandfreqs: map<string, string>)
    ensures Ask(qs, |qs|, answers, bandfreqs) == (Entered(qs), |qs|)
  {
  }

  /** How `Ask` ends at field `i` when the answers ran out or the answer stops the pass. */
  lemma AskStop(qs: seq<Field>, i: nat, answers: seq<string>, bandfreqs: map<string, string>)
    requires i < |qs|
    ensures i >= |answers| ==> Ask(qs, i, answers, bandfreqs) == (QueryQuit, i)
    ensures i < |answers| && answers[i] == "c" ==> Ask(qs, i, answers, bandfreqs) == (Cancelled, i + 1)
    ensures i < |answers| && answers[i] == "quit" ==> Ask(qs, i, answers, bandfreqs) == (QueryQuit, i + 1)
  {
  }

  /**
   * The control flow of `Ask` without the draft: how a pass over `n`
   * fields ends from field `i` on, and the answers it reads in all.
   */
  function Halt(n: nat, i: nat, answers: seq<string>): (r: (Query, nat))
    requires i <= n
    decreases n - i
  {
    if i == n then (Entered([]), i)
    else if i >= |answers| then (QueryQuit, i)
    else if answers[i] == "c" then (Cancelled, i + 1)
    else if answers[i] == "quit" then (QueryQuit, i + 1)
    else Halt(n, i + 1, answers)
  }

  /** The edits a pass makes do not change where it stops, and they keep the layout. */
  lemma {:induction false} AskHalt(qs: seq<Field>, i: nat, answers: seq<string>, bandfreqs: map<string, string>)
    requires i <= |qs|
    ensures Ask(qs, i, answers, bandfreqs).1 == Halt(|qs|, i, answers).1
    ensures Ask(qs, i, answers, bandfreqs).0.Entered? == Halt(|qs|, i, answers).0.Entered?
    ensures Ask(qs, i, answers, bandfreqs).0.Cancelled? == Halt(|qs|, i, answers).0.Cancelled?
    ensures Ask(qs, i, answers, bandfreqs).0.Entered? ==> SameShape(Ask(qs, i, answers, bandfreqs).0.draft, qs)
    decreases |qs| - i
  {
    if i < |qs| && i < |answers| && !Stops(answers[i]) {
      var next := FormStep(qs, i, answers[i], bandfreqs);
      AskHalt(next, i + 1, answers, bandfreqs);
      assert Ask(qs, i, answers, bandfreqs) == Ask(next, i + 1, answers, bandfreqs);
    }
  }

  lemma {:induction false} HaltUsed(n: nat, i: nat, answers: seq<string>)
    requires i <= n && i <= |answers|
    ensures var used := Halt(n, i, answers).1;
            i <= used <= |answers| && used <= n && (i < used ==> NoStop(answers[i..used - 1]))
    decreases n - i
  {
    if i < n && i < |answers| && !Stops(answers[i]) {
      HaltUsed(n, i + 1, answers);
      var used := Halt(n, i + 1, answers).1;
      if i + 1 < used {
        NoStopCons(answers, i, used - 1);
      }
    }
  }

  lemma {:induction false} HaltEntered(n: nat, i: nat, answers: seq<string>)
    requires i <= n && i <= |answers|
    ensures Halt(n, i, answers).0.Entered? <==> |answers| >= n && NoStop(answers[i..n])
    ensures Halt(n, i, answers).0.Entered? ==> Halt(n, i, answers).1 == n
    decreases n - i
  {
    if i < n && i < |answers| {
      if !Stops(answers[i]) {
        HaltEntered(n, i + 1, answers);
        if |answers| >= n {
          assert answers[i..n] == [answers[i]] + answers[i + 1..n];
        }
      } else if |answers| >= n {
        assert answers[i..n][0] == answers[i];
      }
    }
  }

  lemma {:induction false} HaltCancelled(n: nat, i: nat, answers: seq<string>)
    requires i <= n
    ensures var (h, used) := Halt(n, i, answers);
            h.Cancelled? ==> i < used <= |answers| && answers[used - 1] == "c"
    decreases n - i
  {
    if i < n && i < |answers| && !Stops(answers[i]) {
      HaltCancelled(n, i + 1, answers);
    }
  }

  lemma {:induction false} HaltRanOut(n: nat, i: nat, answers: seq<string>)
    requires i <= n && i <= |answers|
    ensures var (h, used) := Halt(n, i, answers);
            h.QueryQuit? && (used <= i || (used <= |answers| && answers[used - 1] != "quit")) ==>
              used == |answers| < n && NoStop(answers[i..])
    decreases n - i
  {
    if i < n && i < |answers| && !Stops(answers[i]) {
      HaltRanOut(n, i + 1, answers);
      HaltUsed(n, i + 1, answers);
      assert answers[i..] == [answers[i]] + answers[i + 1..];
    }
  }

  /** A pass reads at most one answer per field, and every answer before the last one read is neither `c` nor `quit`. */
  lemma AskUsed(qs: seq<Field>, i: nat, answers: seq<string>, bandfreqs: map<string, string>)
    requires i <= |qs| && i <= |answers|
    ensures var used := Ask(qs, i, answers, bandfreqs).1;
            i <= used <= |answers| && used <= |qs| && (i < used ==> NoStop(answers[i..used - 1]))
  {
    AskHalt(qs, i, answers, bandfreqs);
    HaltUsed(|qs|, i, answers);
  }

  /** A pass completes exactly when there is an answer for every field and none is `c` or `quit`. */
  lemma AskEntered(qs: seq<Field>, i: nat, answers: seq<string>, bandfreqs: map<string, string>)
    requires i <= |qs| && i <= |answers|
    ensures Ask(qs, i, answers, bandfreqs).0.Entered? <==> |answers| >= |qs| && NoStop(answers[i..|qs|])
    ensures Ask(qs, i, answers, bandfreqs).0.Entered? ==>
              Ask(qs, i, answers, bandfreqs).1 == |qs| && SameShape(Ask(qs, i, answers, bandfreqs).0.draft, qs)
  {
    AskHalt(qs, i, answers, bandfreqs);
    HaltEntered(|qs|, i, answers);
  }

  /** A cancelled pass ended at a `c`, and no earlier answer stopped it. */
  lemma AskCancelled(qs: seq<Field>, i: nat, answers: seq<string>, bandfreqs: map<string, string>)
    requires i <= |qs| && i <= |answers|
    ensures var (q, used) := Ask(qs, i, answers, bandfreqs);
            q.Cancelled? ==> i < used <= |answers| && answers[used - 1] == "c" && NoStop(answers[i..used - 1])
  {
    AskHalt(qs, i, answers, bandfreqs);
    HaltUsed(|qs|, i, answers);
    HaltCancelled(|qs|, i, answers);
  }

  /** A stop that is not a typed `quit` is the input running out before the last field. */
  lemma AskInputRanOut(qs: seq<Field>, i: nat, answers: seq<string>, bandfreqs: map<string, string>)
    requires i <= |qs| && i <= |answers|
    ensures var (q, used) := Ask(qs, i, answers, bandfreqs);
            q.QueryQuit? && (used <= i || (used <= |answers| && answers[used - 1] != "quit")) ==>
              used == |answers| < |qs| && NoStop(answers[i..])
  {
    AskHalt(qs, i, answers, bandfreqs);
    HaltRanOut(|qs|, i, answers);
  }

  /** A pass over this revision's form that does not stop the program reads at least one answer and keeps the layout. */
  lemma PassProgress(qs: seq<Field>, answers: seq<string>, bandfreqs: map<string, string>)
    requires Keys(qs) == DraftKeys
    ensures var (q, used) := Ask(qs, 0, answers, bandfreqs);
            && used <= |answers|
            && (q.Entered? ==> used == 9 && Keys(q.draft) == DraftKeys)
            && (q.Cancelled? ==> 0 < used)
  {
    AskUsed(qs, 0, answers, bandfreqs);
    AskEntered(qs, 0, answers, bandfreqs);
    AskCancelled(qs, 0, answers, bandfreqs);
    var q := Ask(qs, 0, answers, bandfreqs).0;
    if q.Entered? {
      ShapeKeys(q.draft, qs);
    }
  }

  /** In this revision's layout the dictionary lookup of `freq` reaches field 3. */
  lemma FreqAtThree(qs: seq<Field>)
    requires Keys(qs) == DraftKeys
    ensures KeyIndex(qs, "freq") == 3
    ensures qs[2].key == "band"
  {
    assert Keys(qs)[2] == "band";
    assert Keys(qs)[3] == "freq";
    var k := KeyIndex(qs, "freq");
    assert k <= 3;
    assert Keys(qs)[k] == "freq";
  }

  /**
   * What a completed pass from field `i` produces in this revision's
   * layout: every field from `i` on takes its answer, and an empty
   * frequency answer leaves the configured frequency of the band the
   * band question produced, when the band question was in the pass.
   */
  function Expected(qs: seq<Field>, i: nat, answers: seq<string>, bandfreqs: map<string, string>): (r: seq<Field>)
    requires Keys(qs) == DraftKeys && i <= |qs| <= |answers|
    ensures SameShape(r, qs)
  {
    var a := Apply(qs, i, |qs|, answers);
    if i <= 2 && a[2].value in bandfreqs && answers[3] == "" then a[3 := a[3].(value := bandfreqs[a[2].value])] else a
  }

  /** One answered field moves `Expected` one field on. */
  lemma ExpectedStep(qs: seq<Field>, i: nat, answers: seq<string>, bandfreqs: map<string, string>)
    requires Keys(qs) == DraftKeys && i < |qs| <= |answers|
    ensures Keys(FormStep(qs, i, answers[i], bandfreqs)) == DraftKeys
    ensures Expected(FormStep(qs, i, answers[i], bandfreqs), i + 1, answers, bandfreqs) == Expected(qs, i, answers, bandfreqs)
  {
    var edited := qs[i := Answer(qs[i], answers[i])];
    ShapeKeys(edited, qs);
    ShapeKeys(FormStep(qs, i, answers[i], bandfreqs), qs);
    ApplyStep(qs, i, |qs|, answers);
    if i == 2 {
      ExpectedAtBand(qs, answers, bandfreqs);
    } else {
      BandAtTwo();
      assert edited[i].key == DraftKeys[i] by { assert Keys(qs)[i] == DraftKeys[i]; }
    }
  }

  /** Only field 2 of this revision's layout is the band. */
  lemma BandAtTwo()
    ensures forall i :: 0 <= i < |DraftKeys| && i != 2 ==> DraftKeys[i] != "band"
  {
  }

  lemma ExpectedAtBand(qs: seq<Field>, answers: seq<string>, bandfreqs: map<string, string>)
    requires Keys(qs) == DraftKeys && |qs| <= |answers|
    ensures Expected(FormStep(qs, 2, answers[2], bandfreqs), 3, answers, bandfreqs) == Expected(qs, 2, answers, bandfreqs)
  {
    var edited := qs[2 := Answer(qs[2], answers[2])];
    ShapeKeys(edited, qs);
    FreqAtThree(edited);
    ApplyStep(qs, 2, |qs|, answers);
    var a := Apply(qs, 2, |qs|, answers);
    var band := edited[2].value;
    assert a[2].value == band;
    assert FormStep(qs, 2, answers[2], bandfreqs) == BandFreq(edited, band, bandfreqs);
    if band in bandfreqs {
      var f := edited[3].(value := bandfreqs[band]);
      assert BandFreq(edited, band, bandfreqs) == edited[3 := f];
      ApplyUpdate(edited, 3, |qs|, answers, 3, f);
      assert a[3] == Answer(edited[3], answers[3]);
    } else {
      assert BandFreq(edited, band, bandfreqs) == edited;
    }
  }

  /** The draft of a completed pass, stated as `Expected`. */
  lemma {:induction false} AskDraft(qs: seq<Field>, i: nat, answers: seq<string>, bandfreqs: map<string, string>)
    requires Keys(qs) == DraftKeys && i <= |qs| && |qs| <= |answers|
    requires NoStop(answers[i..|qs|])
    ensures Ask(qs, i, answers, bandfreqs).0 == Entered(Expected(qs, i, answers, bandfreqs))
    decreases |qs| - i
  {
    if i < |qs| {
      assert answers[i] == answers[i..|qs|][0];
      assert answers[i + 1..|qs|] == answers[i..|qs|][1..];
      ExpectedStep(qs, i, answers, bandfreqs);
      AskDraft(FormStep(qs, i, answers[i], bandfreqs), i + 1, answers, bandfreqs);
    } else {
      ApplyNone(qs, i, answers);
    }
  }

  /**
   * The first pass, field by field: every field takes its non-empty answer
   * or keeps its default, except the frequency, which an empty answer
   * leaves at the configured frequency of the band just entered, or empty
   * when that band has none.
   */
  lemma FirstPass(d: QsoDefaults, date: string, time: string, answers: seq<string>, bandfreqs: map<string, string>)
    requires |answers| >= 9 && NoStop(answers[..9])
    ensures var qs := FirstDraft(d, date, time);
            var (q, used) := Ask(qs, 0, answers, bandfreqs);
            var band := if answers[2] == "" then d.band else answers[2];
            && q.Entered? && used == 9 && Keys(q.draft) == DraftKeys
            && q.draft[2].value == band
            && q.draft[3].value == (if answers[3] != "" then answers[3] else if band in bandfreqs then bandfreqs[band] else "")
            && (forall j :: 0 <= j < 9 && j != 3 ==> q.draft[j] == Answer(qs[j], answers[j]))
  {
    var qs := FirstDraft(d, date, time);
    assert answers[0..|qs|] == answers[..9];
    AskEntered(qs, 0, answers, bandfreqs);
    AskDraft(qs, 0, answers, bandfreqs);
    ShapeKeys(Ask(qs, 0, answers, bandfreqs).0.draft, qs);
  }

  // ---------------------------------------------------------------------
  // confirm_and_submit_qso

  /** The INSERT reply to attempt `k`; attempts beyond the given replies get none. */
  function Reply(replies: seq<Option<string>>, k: nat): (r: Option<string>)
    ensures k >= |replies| ==> r.None?
  {
    if k < |replies| then replies[k] else None
  }

  /** What attempt `k` to upload `adif` yields. */
  function Attempt(adif: string, replies: seq<Option<string>>, k: nat): Submission
  {
    Submit(adif, Reply(replies, k))
  }

  predicate Uploaded(adif: string, replies: seq<Option<string>>, k: nat)
  {
    Attempt(adif, replies, k).logid.Some?
  }

  /** The `logid` `send_qso` returns: the digits of the log id, or `"null"`. */
  function LogIdText(s: Submission): (r: string)
    ensures s.logid.Some? ==> r == s.logid.value
    ensures s.logid.None? ==> r == "null"
  {
    if s.logid.Some? then s.logid.value else "null"
  }

  /** A log id taken from a reply is never the text `null`. */
  lemma SubmitNotNull(adif: string, reply: Option<string>)
    ensures LogIdText(Submit(adif, reply)) == "null" <==> Submit(adif, reply).logid.None?
  {
    var id := Submit(adif, reply).logid;
    if id.Some? {
      assert IsDigit(id.value[0]) by { assert id.value[0] in id.value; }
      assert !IsDigit("null"[0]);
    }
  }

  /** The audit lines of attempts `0` up to `n`, in order. */
  function AuditTrail(adif: string, replies: seq<Option<string>>, n: nat): seq<string>
  {
    if n == 0 then [] else AuditTrail(adif, replies, n - 1) + AuditLines(Attempt(adif, replies, n - 1))
  }

  /** `n` copies of one payload: the INSERT requests of `n` attempts. */
  function Repeat(adif: string, n: nat): (r: seq<string>)
    ensures |r| == n && forall k :: 0 <= k < n ==> r[k] == adif
  {
    seq(n, k => adif)
  }

  lemma RepeatStep(adif: string, n: nat)
    ensures Repeat(adif, n + 1) == Repeat(adif, n) + [adif]
  {
  }

  /** How the retry loop after `Y` ends. */
  datatype RetryEnd = Succeeded | Declined | RetryQuit

  /**
   * The inner loop of `confirm_and_submit_qso` from attempt `k` on, the
   * retry question reading answer `i`: the outcome, the answers read in all
   * and the attempts made in all.
   */
  function Retry(answers: seq<string>, i: nat, adif: string, replies: seq<Option<string>>, k: nat): (r: (RetryEnd, nat, nat))
    ensures k < r.2
    decreases |answers| - i
  {
    if Uploaded(adif, replies, k) then (Succeeded, i, k + 1)
    else if i >= |answers| then (RetryQuit, i, k + 1)
    else if Upper(answers[i]) == "N" then (Declined, i + 1, k + 1)
    else Retry(answers, i + 1, adif, replies, k + 1)
  }

  /** How a call of `confirm_and_submit_qso` ends: its `done`, or the program stops. */
  datatype ConfirmEnd = Done(done: bool) | ConfirmQuit

  /**
   * The outer loop of `confirm_and_submit_qso` from answer `i` on: the
   * outcome, the answers read and the upload attempts made.
   */
  function Confirm(answers: seq<string>, i: nat, adif: string, replies: seq<Option<string>>): (r: (ConfirmEnd, nat, nat))
    decreases |answers| - i
  {
    if i >= |answers| then (ConfirmQuit, i, 0)
    else
      var a := Upper(answers[i]);
      if a == "Y" then
        var (e, used, sent) := Retry(answers, i + 1, adif, replies, 0);
        (if e == RetryQuit then ConfirmQuit else Done(true), used, sent)
      else if a == "C" then (Done(true), i + 1, 0)
      else if a == "N" then (Done(false), i + 1, 0)
      else if a == "QUIT" then (ConfirmQuit, i + 1, 0)
      else Confirm(answers, i + 1, adif, replies)
  }

  /** Not a key answer of the confirm question: it is asked again. */
  predicate Reprompts(answer: string)
  {
    Upper(answer) !in {"Y", "C", "N", "QUIT"}
  }

  /**
   * The confirm question asked from answer `i` on: the first key answer,
   * upper-cased, and the answers read up to it; `""` when the input ends first.
   */
  function ConfirmAnswer(answers: seq<string>, i: nat): (r: (string, nat))
    ensures i <= r.1 && (i <= |answers| ==> r.1 <= |answers|)
    ensures r.0 in {"", "Y", "C", "N", "QUIT"}
    ensures r.0 != "" ==> i < r.1 <= |answers| && Upper(answers[r.1 - 1]) == r.0
    decreases |answers| - i
  {
    if i >= |answers| then ("", i)
    else if Reprompts(answers[i]) then ConfirmAnswer(answers, i + 1)
    else (Upper(answers[i]), i + 1)
  }

  /**
   * `Confirm` reads the key answer first and then acts on it: `Y` hands
   * over to the retry loop, its first attempt numbered 0.
   */
  lemma {:induction false} ConfirmByAnswer(answers: seq<string>, i: nat, adif: string, replies: seq<Option<string>>)
    ensures var (key, u) := ConfirmAnswer(answers, i);
            var r := Retry(answers, u, adif, replies, 0);
            Confirm(answers, i, adif, replies) ==
              if key == "Y" then (if r.0 == RetryQuit then ConfirmQuit else Done(true), r.1, r.2)
              else if key == "C" then (Done(true), u, 0)
              else if key == "N" then (Done(false), u, 0)
              else (ConfirmQuit, u, 0)
    decreases |answers| - i
  {
    if i < |answers| && Reprompts(answers[i]) {
      ConfirmByAnswer(answers, i + 1, adif, replies);
    }
  }

  /**
   * The retry loop stops at the first successful attempt; every attempt
   * before the last failed and was followed by an answer other than `N`.
   */
  lemma {:induction false} RetrySpec(answers: seq<string>, i: nat, adif: string, replies: seq<Option<string>>, k: nat)
    requires i <= |answers|
    ensures var (e, used, sent) := Retry(answers, i, adif, replies, k);
            && i <= used <= |answers|
            && used - i == (if e == Declined then sent - k else sent - k - 1)
            && (e == Succeeded <==> Uploaded(adif, replies, sent - 1))
            && (forall j :: k <= j < sent - 1 ==> !Uploaded(adif, replies, j))
            && (forall j :: i <= j < i + (sent - k - 1) ==> Upper(answers[j]) != "N")
            && (e == Declined ==> Upper(answers[used - 1]) == "N")
            && (e == RetryQuit ==> used == |answers|)
    decreases |answers| - i
  {
    if !Uploaded(adif, replies, k) && i < |answers| && Upper(answers[i]) != "N" {
      RetrySpec(answers, i + 1, adif, replies, k + 1);
    }
  }

  /** The retry loop ends in success exactly when its last attempt got a log id. */
  lemma RetrySucceeded(answers: seq<string>, i: nat, adif: string, replies: seq<Option<string>>, k: nat)
    requires i <= |answers|
    ensures var r := Retry(answers, i, adif, replies, k);
            r.0 == Succeeded <==> Uploaded(adif, replies, r.2 - 1)
  {
    RetrySpec(answers, i, adif, replies, k);
  }

  /** With every reply a failure, the retry loop asks until an `N` or the end of input. */
  lemma {:induction false} RetryAllFail(answers: seq<string>, i: nat, adif: string, replies: seq<Option<string>>, k: nat)
    requires i <= |answers|
    requires forall j :: j >= k ==> !Uploaded(adif, replies, j)
    ensures Retry(answers, i, adif, replies, k).0 != Succeeded
    decreases |answers| - i
  {
    if i < |answers| && Upper(answers[i]) != "N" {
      RetryAllFail(answers, i + 1, adif, replies, k + 1);
    }
  }

  /**
   * `confirm_and_submit_qso` returns False only for an `N` given before any
   * `Y`, `C` or `quit`, and then nothing was sent. Once something was sent
   * it never returns False, it returns True when the last upload got a log
   * id, and every upload before the last got none.
   */
  lemma {:induction false} ConfirmSpec(answers: seq<string>, i: nat, adif: string, replies: seq<Option<string>>)
    requires i <= |answers|
    ensures var (e, used, sent) := Confirm(answers, i, adif, replies);
            && i <= used <= |answers|
            && (e == Done(false) ==>
                  sent == 0 && i < used && Upper(answers[used - 1]) == "N"
                  && forall j :: i <= j < used - 1 ==> Reprompts(answers[j]))
            && (sent > 0 ==> e != Done(false))
            && (sent > 0 && Uploaded(adif, replies, sent - 1) ==> e == Done(true))
            && (forall j :: 0 <= j < sent - 1 ==> !Uploaded(adif, replies, j))
    decreases |answers| - i
  {
    if i < |answers| {
      var a := Upper(answers[i]);
      if a == "Y" {
        RetrySpec(answers, i + 1, adif, replies, 0);
      } else if a != "C" && a != "N" && a != "QUIT" {
        ConfirmSpec(answers, i + 1, adif, replies);
      }
    }
  }

  /**
   * Declining at the confirm question sends nothing and reads at least the
   * `N`; a successful upload ends with True.
   */
  lemma ConfirmProgress(answers: seq<string>, adif: string, replies: seq<Option<string>>)
    ensures var (e, used, sent) := Confirm(answers, 0, adif, replies);
            && used <= |answers|
            && (e == Done(false) ==> sent == 0 && 0 < used)
            && (sent > 0 && Uploaded(adif, replies, sent - 1) ==> e == Done(true))
  {
    ConfirmSpec(answers, 0, adif, replies);
  }

  /** A reply that has `STATUS=FAIL` never lets the retry loop succeed, so only `N` or the end of input ends it. */
  lemma FailingServer(answers: seq<string>, i: nat, adif: string, replies: seq<Option<string>>)
    requires i <= |answers|
    requires forall j :: 0 <= j < |replies| ==> replies[j].None? || Contains(replies[j].value, "STATUS=FAIL")
    ensures Retry(answers, i, adif, replies, 0).0 != Succeeded
  {
    RetryAllFail(answers, i, adif, replies, 0);
  }

  // ---------------------------------------------------------------------
  // recent_qsos

  /** An entry of the recent-QSO list: call, time on and frequency. */
  datatype Recent = Recent(call: string, timeOn: string, freq: string)

  const RecentQsoLimit: nat := 5

  /** `append`, then `pop(0)` when the list has grown beyond `limit`. */
  function PushRecent(q: seq<Recent>, e: Recent, limit: nat): (r: seq<Recent>)
    ensures |q| <= limit ==> |r| <= limit
    ensures |r| >= 1 ==> r[|r| - 1] == e
  {
    var appended := q + [e];
    if |appended| > limit then appended[1..] else appended
  }

  /** The list after a run of pushes from empty: the newest entries, oldest first. */
  function PushAll(es: seq<Recent>, limit: nat): seq<Recent>
  {
    if es == [] then [] else PushRecent(PushAll(es[..|es| - 1], limit), es[|es| - 1], limit)
  }

  function Min(a: nat, b: nat): nat { if a < b then a else b }

  /** The queue is first-in first-out: it holds the last `limit` entries pushed, in order. */
  lemma {:induction false} PushAllWindow(es: seq<Recent>, limit: nat)
    requires limit >= 1
    ensures PushAll(es, limit) == es[|es| - Min(|es|, limit)..]
  {
    if es != [] {
      var init := es[..|es| - 1];
      PushAllWindow(init, limit);
      assert init[|init| - Min(|init|, limit)..] + [es[|es| - 1]] == es[|init| - Min(|init|, limit)..];
    }
  }

  /** The value of the field named `k`. */
  function Value(qs: seq<Field>, k: string): (v: string)
    requires k in Keys(qs)
    ensures exists j :: 0 <= j < |qs| && qs[j].key == k && qs[j].value == v
  {
    qs[KeyIndex(qs, k)].value
  }

  /** The recent-list entry of an uploaded QSO. */
  function RecentOf(call: string, qs: seq<Field>): Recent
    requires Keys(qs) == DraftKeys
  {
    assert Keys(qs)[1] == "time_on" && Keys(qs)[3] == "freq";
    Recent(call, Value(qs, "time_on"), Value(qs, "freq"))
  }

  /** The field names of the draft and the time-on and frequency the recent list takes from it. */
  lemma RecentFields(call: string, qs: seq<Field>)
    requires Keys(qs) == DraftKeys
    ensures RecentOf(call, qs) == Recent(call, qs[1].value, qs[3].value)
  {
    FreqAtThree(qs);
    assert Keys(qs)[1] == "time_on";
    assert KeyIndex(qs, "time_on") <= 1;
    assert Keys(qs)[KeyIndex(qs, "time_on")] == "time_on";
  }

  /** The records of a FETCH reply; no reply reads as no lines. */
  function FetchLines(reply: Option<seq<string>>): seq<string>
  {
    if reply.Some? then reply.value else []
  }

  /** The recent list after a successful upload: the QSO is added when the re-fetch's first record is non-empty. */
  function Remember(recent: seq<Recent>, call: string, qs: seq<Field>, fetched: Option<seq<string>>, xmlFields: string): seq<Recent>
    requires Keys(qs) == DraftKeys
  {
    if Records(FetchLines(fetched), CharFields(xmlFields))[0] != map[]
    then PushRecent(recent, RecentOf(call, qs), RecentQsoLimit)
    else recent
  }

  /** How one round of the QSO entry loop ends: the program stops, the form was cancelled, or the confirm question returned. */
  datatype PassEnd = PassQuit | PassCancelled | PassDone(done: bool)

  // ---------------------------------------------------------------------
  // The logger

  /** The state of the program: configuration, the current draft, the recent list and the audit log. */
  class QrzLogger {
    const station: string
    const defaults: QsoDefaults
    const bandfreqs: map<string, string>
    /** The `xml_fields` setting as a string; its characters are the field filter. */
    const xmlFields: string
    var qso: Option<seq<Field>>
    var recentQsos: seq<Recent>
    /** Lines appended to the audit log during this run. */
    var log: seq<string>
    /** The ADIF payloads of the INSERT requests sent during this run. */
    ghost var posted: seq<string>

    ghost predicate Valid()
      reads this
    {
      |recentQsos| <= RecentQsoLimit && (qso.Some? ==> Keys(qso.value) == DraftKeys)
    }

    constructor(station: string, defaults: QsoDefaults, bandfreqs: map<string, string>, xmlFields: string)
      ensures Valid()
      ensures this.station == station && this.defaults == defaults
      ensures this.bandfreqs == bandfreqs && this.xmlFields == xmlFields
      ensures qso.None? && recentQsos == [] && log == [] && posted == []
    {
      this.station := station;
      this.defaults := defaults;
      this.bandfreqs := bandfreqs;
      this.xmlFields := xmlFields;
      qso := None;
      recentQsos := [];
      log := [];
      posted := [];
    }

    /** The ADIF payload of `send_qso`, built one data specifier at a time. */
    method BuildAdif(call: string, fields: seq<Field>) returns (adif: string)
      ensures adif == Encode(station, call, fields)
    {
      adif := "<station_callsign:" + NatToString(|station|) + ">" + station;
      adif := adif + ("<call:" + NatToString(|call|) + ">" + call);
      EncodeHeader(station, call);
      assert Header(station, call) + Pairs(fields[..0]) == Header(station, call);
      var i := 0;
      while i < |fields|
        invariant i <= |fields|
        invariant adif == EncodePairs(Header(station, call) + Pairs(fields[..i]))
      {
        ghost var ps := Header(station, call) + Pairs(fields[..i]);
        var p := Pair(fields[i].key, fields[i].value);
        EncodePairsSnoc(ps, p);
        assert Pairs(fields[..i + 1]) == Pairs(fields[..i]) + [p];
        assert Header(station, call) + Pairs(fields[..i + 1]) == ps + [p];
        adif := adif + ("<" + fields[i].key + ":" + NatToString(|fields[i].value|) + ">" + fields[i].value);
        i := i + 1;
      }
      assert fields[..i] == fields;
      adif := adif + "<eor>";
    }

    /** `send_qso`: one INSERT of `fields`, its reply classified and, if a reply came, logged. */
    method SendQso(fields: seq<Field>, call: string, reply: Option<string>) returns (logid: string)
      modifies this`log, this`posted
      ensures var sub := Submit(Encode(station, call, fields), reply);
              && logid == LogIdText(sub)
              && log == old(log) + AuditLines(sub)
              && posted == old(posted) + [Encode(station, call, fields)]
    {
      logid := "null";
      var status := FailedLabel;
      var adif := BuildAdif(call, fields);
      posted := posted + [adif];
      if reply.Some? && reply.value != "" {
        if !Contains(reply.value, "STATUS=FAIL") {
          var found := LogId(reply.value);
          if found.Some? {
            logid := found.value;
            status := SuccessLabel;
          }
        }
        log := log + [status + adif + "\n"];
      }
    }

    /** The form a pass starts from: a fresh draft, or the draft of the previous pass. */
    function Questions(prev: Option<seq<Field>>, date: string, time: string): (qs: seq<Field>)
      ensures prev.None? ==> Keys(qs) == DraftKeys
    {
      if prev.None? then FirstDraft(defaults, date, time) else prev.value
    }

    /**
     * One round of the entry loop of `main` from the draft `prev`: the form,
     * then, for a completed form, the confirm question on the answers after
     * it. The outcome, the answers read, the upload attempts, and the draft
     * the next round starts from.
     */
    function Round(prev: Option<seq<Field>>, date: string, time: string, call: string,
                   answers: seq<string>, replies: seq<Option<string>>): (r: (PassEnd, nat, nat, Option<seq<Field>>))
      ensures r.1 <= |answers|
      ensures r.0 == PassDone(false) ==> 0 < r.1
    {
      var qs := Questions(prev, date, time);
      AskUsed(qs, 0, answers, bandfreqs);
      var (q, u) := Ask(qs, 0, answers, bandfreqs);
      match q
      case QueryQuit => (PassQuit, u, 0, prev)
      case Cancelled => (PassCancelled, u, 0, None)
      case Entered(draft) =>
        ConfirmProgress(answers[u..], Encode(station, call, draft), replies);
        var (e, u2, s2) := Confirm(answers[u..], 0, Encode(station, call, draft), replies);
        (if e == ConfirmQuit then PassQuit else PassDone(e.done), u + u2, s2, Some(draft))
    }

    /**
     * How a round can end: a cancelled form clears the draft, an `N` keeps
     * the entered draft, both after reading an answer and sending nothing;
     * a successful upload ends the round with True.
     */
    lemma RoundProgress(prev: Option<seq<Field>>, date: string, time: string, call: string,
                        answers: seq<string>, replies: seq<Option<string>>)
      requires prev.Some? ==> Keys(prev.value) == DraftKeys
      ensures var (r, used, sent, next) := Round(prev, date, time, call, answers, replies);
              && (next.Some? ==> Keys(next.value) == DraftKeys)
              && (r == PassCancelled ==> 0 < used && sent == 0 && next.None?)
              && (r == PassDone(false) ==> 0 < used && sent == 0 && next.Some?)
              && (sent > 0 ==> next.Some? && (Uploaded(Encode(station, call, next.value), replies, sent - 1) ==> r == PassDone(true)))
    {
      var qs := Questions(prev, date, time);
      PassProgress(qs, answers, bandfreqs);
      RoundCases(prev, date, time, call, answers, replies);
      var (q, u) := Ask(qs, 0, answers, bandfreqs);
      if q.Entered? {
        ConfirmProgress(answers[u..], Encode(station, call, q.draft), replies);
      }
    }

    /** `Round` by the way the form ends. */
    lemma RoundCases(prev: Option<seq<Field>>, date: string, time: string, call: string,
                     answers: seq<string>, replies: seq<Option<string>>)
      ensures var (q, u) := Ask(Questions(prev, date, time), 0, answers, bandfreqs);
              && u <= |answers|
              && (q.QueryQuit? ==> Round(prev, date, time, call, answers, replies) == (PassQuit, u, 0, prev))
              && (q.Cancelled? ==> Round(prev, date, time, call, answers, replies) == (PassCancelled, u, 0, None))
              && (q.Entered? ==>
                    var (e, u2, s2) := Confirm(answers[u..], 0, Encode(station, call, q.draft), replies);
                    Round(prev, date, time, call, answers, replies)
                      == (if e == ConfirmQuit then PassQuit else PassDone(e.done), u + u2, s2, Some(q.draft)))
    {
      AskUsed(Questions(prev, date, time), 0, answers, bandfreqs);
    }

    /**
     * The loop `while not done` of `main` from answer `i` on, each round
     * starting from the draft the previous round left: whether the program
     * stops, the answers read, the upload attempts of the last round, and
     * the draft at the end.
     */
    function Rounds(prev: Option<seq<Field>>, date: string, time: string, call: string,
                    inputs: seq<string>, i: nat, replies: seq<Option<string>>): (r: (bool, nat, nat, Option<seq<Field>>))
      requires i <= |inputs|
      ensures i <= r.1 <= |inputs|
      decreases |inputs| - i
    {
      var (pr, pu, ps, next) := Round(prev, date, time, call, inputs[i..], replies);
      if pr == PassQuit then (true, i + pu, ps, next)
      else if pr == PassCancelled then (false, i + pu, 0, next)
      else if pr.done then (false, i + pu, ps, next)
      else Rounds(next, date, time, call, inputs, i + pu, replies)
    }

    /** `query_qso_data`: one pass over the form, the draft edited field by field. */
    method QueryQsoData(prev: Option<seq<Field>>, date: string, time: string, answers: seq<string>)
      returns (q: Query, used: nat)
      ensures (q, used) == Ask(Questions(prev, date, time), 0, answers, bandfreqs)
    {
      var questions := Questions(prev, date, time);
      q, used := FillForm(questions, answers);
    }

    /** One question of `query_qso_data`: field `i` takes the answer, and after the band the frequency follows. */
    method EnterAnswer(form: seq<Field>, i: nat, inp: string) returns (next: seq<Field>)
      requires i < |form|
      ensures next == FormStep(form, i, inp, bandfreqs)
    {
      next := form;
      if inp != "" {
        next := next[i := next[i].(value := inp)];
      }
      assert next == form[i := Answer(form[i], inp)];
      if next[i].key == "band" {
        var band := next[i].value;
        var k := KeyIndex(next, "freq");
        if band in bandfreqs && k >= 0 {
          next := next[k := next[k].(value := bandfreqs[band])];
        }
      }
    }

    /** The loop of `query_qso_data` over the fields of `questions`, each taking the next answer. */
    method FillForm(questions: seq<Field>, answers: seq<string>) returns (q: Query, used: nat)
      ensures (q, used) == Ask(questions, 0, answers, bandfreqs)
    {
      var form := questions;
      var i := 0;
      while i < |form|
        invariant i <= |form| == |questions|
        invariant Ask(questions, 0, answers, bandfreqs) == Ask(form, i, answers, bandfreqs)
      {
        AskStop(form, i, answers, bandfreqs);
        if i >= |answers| {
          return QueryQuit, i;
        }
        var inp := answers[i];
        if inp == "c" {
          return Cancelled, i + 1;
        }
        if inp == "quit" {
          return QueryQuit, i + 1;
        }
        AskStep(form, i, answers, bandfreqs);
        form := EnterAnswer(form, i, inp);
        i := i + 1;
      }
      AskDone(form, answers, bandfreqs);
      return Entered(form), i;
    }

    /**
     * The retry loop of `confirm_and_submit_qso`: sends the same draft
     * until a log id comes back, asking before every new attempt.
     */
    method RetryUpload(fields: seq<Field>, call: string, answers: seq<string>, first: nat, replies: seq<Option<string>>)
      returns (e: RetryEnd, used: nat, sent: nat)
      requires first <= |answers|
      modifies this`log, this`posted
      ensures var adif := Encode(station, call, fields);
              && (e, used, sent) == Retry(answers, first, adif, replies, 0)
              && log == old(log) + AuditTrail(adif, replies, sent)
              && posted == old(posted) + Repeat(adif, sent)
    {
      ghost var adif := Encode(station, call, fields);
      used := first;
      sent := 0;
      while true
        invariant first <= used <= |answers|
        invariant Retry(answers, first, adif, replies, 0) == Retry(answers, used, adif, replies, sent)
        invariant log == old(log) + AuditTrail(adif, replies, sent)
        invariant posted == old(posted) + Repeat(adif, sent)
        decreases |answers| - used
      {
        ghost var before := log;
        var logid := SendQso(fields, call, Reply(replies, sent));
        SubmitNotNull(adif, Reply(replies, sent));
        RepeatStep(adif, sent);
        assert log == before + AuditLines(Attempt(adif, replies, sent));
        assert AuditTrail(adif, replies, sent + 1) == AuditTrail(adif, replies, sent) + AuditLines(Attempt(adif, replies, sent));
        assert log == old(log) + AuditTrail(adif, replies, sent + 1);
        assert (logid != "null") == Uploaded(adif, replies, sent);
        sent := sent + 1;
        if logid != "null" {
          return Succeeded, used, sent;
        }
        if used >= |answers| {
          return RetryQuit, used, sent;
        }
        var retry := Upper(answers[used]);
        used := used + 1;
        if retry == "N" {
          return Declined, used, sent;
        }
      }
    }

    /** After a successful upload: re-fetch the QSO and, if it came back, add it to the recent list. */
    method NoteRecent(call: string, fetched: Option<seq<string>>)
      requires Valid() && qso.Some?
      modifies this`recentQsos
      ensures Valid()
      ensures recentQsos == Remember(old(recentQsos), call, qso.value, fetched, xmlFields)
    {
      var result := GetQsos(fetched, CharFields(xmlFields));
      ghost var after := Remember(recentQsos, call, qso.value, fetched, xmlFields);
      assert result == Records(FetchLines(fetched), CharFields(xmlFields));
      if result[0] != map[] {
        var entry := RecentOf(call, qso.value);
        assert after == PushRecent(recentQsos, entry, RecentQsoLimit);
        recentQsos := PushRecent(recentQsos, entry, RecentQsoLimit);
      }
    }

    /**
     * The `Y` branch of `confirm_and_submit_qso`: the retry loop, then the
     * re-fetch and the recent list when the last attempt got a log id.
     */
    method UploadConfirmed(call: string, answers: seq<string>, first: nat, replies: seq<Option<string>>, fetched: Option<seq<string>>)
      returns (quit: bool, used: nat, sent: nat)
      requires Valid() && qso.Some? && first <= |answers|
      modifies this`log, this`posted, this`recentQsos
      ensures Valid()
      ensures var adif := Encode(station, call, qso.value);
              var (e, u, s) := Retry(answers, first, adif, replies, 0);
              && quit == (e == RetryQuit) && used == u && sent == s && sent > 0
              && log == old(log) + AuditTrail(adif, replies, sent)
              && posted == old(posted) + Repeat(adif, sent)
              && recentQsos == if Uploaded(adif, replies, sent - 1)
                               then Remember(old(recentQsos), call, qso.value, fetched, xmlFields)
                               else old(recentQsos)
    {
      ghost var adif := Encode(station, call, qso.value);
      ghost var recent := recentQsos;
      RetrySucceeded(answers, first, adif, replies, 0);
      var retry;
      retry, used, sent := RetryUpload(qso.value, call, answers, first, replies);
      ghost var uploaded := Uploaded(adif, replies, sent - 1);
      assert uploaded <==> retry == Succeeded;
      if retry == Succeeded {
        NoteRecent(call, fetched);
        assert recentQsos == Remember(recent, call, qso.value, fetched, xmlFields);
      }
      quit := retry == RetryQuit;
    }

    /** The question of `confirm_and_submit_qso`, asked again until a key answer or the end of input. */
    method AskConfirm(answers: seq<string>) returns (key: string, used: nat)
      ensures (key, used) == ConfirmAnswer(answers, 0)
    {
      used := 0;
      while used < |answers|
        invariant used <= |answers|
        invariant ConfirmAnswer(answers, 0) == ConfirmAnswer(answers, used)
        decreases |answers| - used
      {
        var answer := Upper(answers[used]);
        used := used + 1;
        if answer in {"Y", "C", "N", "QUIT"} {
          return answer, used;
        }
      }
      return "", used;
    }

    /**
     * `confirm_and_submit_qso`: asks until `Y`, `C`, `N` or `quit`; after
     * `Y` the unchanged draft is sent again until an upload succeeds or the
     * operator declines the retry, and a success whose re-fetch finds the
     * QSO adds it to the recent list.
     */
    method ConfirmAndSubmitQso(call: string, answers: seq<string>, replies: seq<Option<string>>, fetched: Option<seq<string>>)
      returns (e: ConfirmEnd, used: nat, sent: nat)
      requires Valid() && qso.Some?
      modifies this`log, this`posted, this`recentQsos
      ensures Valid()
      ensures var adif := Encode(station, call, qso.value);
              && (e, used, sent) == Confirm(answers, 0, adif, replies)
              && log == old(log) + AuditTrail(adif, replies, sent)
              && posted == old(posted) + Repeat(adif, sent)
              && recentQsos == if sent > 0 && Uploaded(adif, replies, sent - 1)
                               then Remember(old(recentQsos), call, qso.value, fetched, xmlFields)
                               else old(recentQsos)
    {
      ghost var adif := Encode(station, call, qso.value);
      ghost var recent := recentQsos;
      ConfirmByAnswer(answers, 0, adif, replies);
      var key;
      key, used := AskConfirm(answers);
      if key == "Y" {
        ghost var r := Retry(answers, used, adif, replies, 0);
        var quit;
        quit, used, sent := UploadConfirmed(call, answers, used, replies, fetched);
        assert (quit, used, sent) == (r.0 == RetryQuit, r.1, r.2);
        e := if quit then ConfirmQuit else Done(true);
        assert (e, used, sent) == Confirm(answers, 0, adif, replies);
        assert recentQsos == if Uploaded(adif, replies, sent - 1) then Remember(recent, call, qso.value, fetched, xmlFields) else recent;
        assert sent > 0 && log == old(log) + AuditTrail(adif, replies, sent) && posted == old(posted) + Repeat(adif, sent);
        assert (e, used, sent) == Confirm(answers, 0, adif, replies)
               && log == old(log) + AuditTrail(adif, replies, sent)
               && posted == old(posted) + Repeat(adif, sent)
               && recentQsos == if sent > 0 && Uploaded(adif, replies, sent - 1)
                                then Remember(old(recentQsos), call, qso.value, fetched, xmlFields)
                                else old(recentQsos);
      } else {
        e := if key == "C" then Done(true) else if key == "N" then Done(false) else ConfirmQuit;
        sent := 0;
        assert (e, used, sent) == Confirm(answers, 0, adif, replies);
        assert log == old(log) + AuditTrail(adif, replies, 0) && posted == old(posted) + Repeat(adif, 0);
        assert recentQsos == old(recentQsos);
      }
    }

    /**
     * One round of the QSO entry loop of `main`: a pass over the form,
     * then, if the form was completed, the confirm question.
     */
    method QsoPass(call: string, date: string, time: string, answers: seq<string>,
                   replies: seq<Option<string>>, fetched: Option<seq<string>>)
      returns (r: PassEnd, used: nat, sent: nat)
      requires Valid()
      modifies this`qso, this`log, this`posted, this`recentQsos
      ensures Valid()
      ensures (r, used, sent, qso) == Round(old(qso), date, time, call, answers, replies)
      ensures sent == 0 ==> posted == old(posted) && log == old(log) && recentQsos == old(recentQsos)
      ensures sent > 0 ==>
                qso.Some? &&
                var adif := Encode(station, call, qso.value);
                && posted == old(posted) + Repeat(adif, sent)
                && log == old(log) + AuditTrail(adif, replies, sent)
                && recentQsos == if Uploaded(adif, replies, sent - 1)
                                 then Remember(old(recentQsos), call, qso.value, fetched, xmlFields)
                                 else old(recentQsos)
    {
      ghost var prev := qso;
      ghost var recent := recentQsos;
      PassProgress(Questions(prev, date, time), answers, bandfreqs);
      RoundCases(prev, date, time, call, answers, replies);
      var q, u := QueryQsoData(qso, date, time, answers);
      match q {
        case QueryQuit =>
          return PassQuit, u, 0;
        case Cancelled =>
          qso := None;
          return PassCancelled, u, 0;
        case Entered(draft) =>
          qso := Some(draft);
          ghost var adif := Encode(station, call, draft);
          ghost var c := Confirm(answers[u..], 0, adif, replies);
          var e, u2, s2 := ConfirmAndSubmitQso(call, answers[u..], replies, fetched);
          assert (e, u2, s2) == c;
          r := if e == ConfirmQuit then PassQuit else PassDone(e.done);
          used, sent := u + u2, s2;
          assert (r, used, sent, qso) == Round(prev, date, time, call, answers, replies);
          assert recentQsos == if sent > 0 && Uploaded(adif, replies, sent - 1)
                               then Remember(recent, call, draft, fetched, xmlFields)
                               else recent;
          assert sent == 0 ==> posted == old(posted) && log == old(log);
      }
    }

    /** One step of `Rounds`: the round from answer `i`, then, when it asks again, the rounds after it. */
    lemma RoundsStep(prev: Option<seq<Field>>, date: string, time: string, call: string,
                     inputs: seq<string>, i: nat, replies: seq<Option<string>>)
      requires i <= |inputs|
      ensures var (pr, pu, ps, next) := Round(prev, date, time, call, inputs[i..], replies);
              && (pr == PassQuit ==> Rounds(prev, date, time, call, inputs, i, replies) == (true, i + pu, ps, next))
              && (pr == PassCancelled ==> Rounds(prev, date, time, call, inputs, i, replies) == (false, i + pu, 0, next))
              && (pr == PassDone(true) ==> Rounds(prev, date, time, call, inputs, i, replies) == (false, i + pu, ps, next))
              && (pr == PassDone(false) ==>
                    Rounds(prev, date, time, call, inputs, i, replies) == Rounds(next, date, time, call, inputs, i + pu, replies))
    {
    }

    /**
     * The QSO entry of `main` for one call sign: the draft starts empty,
     * and rounds repeat until a confirm answer other than `N`, a cancelled
     * form, or the program stopping. All uploads carry the draft of the
     * last round.
     */
    method EnterQso(call: string, date: string, time: string, inputs: seq<string>,
                    replies: seq<Option<string>>, fetched: Option<seq<string>>)
      returns (quit: bool, used: nat, sent: nat)
      requires Valid()
      modifies this`qso, this`log, this`posted, this`recentQsos
      ensures Valid()
      ensures (quit, used, sent, qso) == Rounds(None, date, time, call, inputs, 0, replies)
      ensures !quit && qso.None? ==> sent == 0
      ensures sent == 0 ==> posted == old(posted) && log == old(log) && recentQsos == old(recentQsos)
      ensures sent > 0 ==>
                qso.Some? &&
                var adif := Encode(station, call, qso.value);
                && posted == old(posted) + Repeat(adif, sent)
                && log == old(log) + AuditTrail(adif, replies, sent)
                && recentQsos == (if Uploaded(adif, replies, sent - 1)
                                  then Remember(old(recentQsos), call, qso.value, fetched, xmlFields)
                                  else old(recentQsos))
                && (Uploaded(adif, replies, sent - 1) ==> !quit)
    {
      qso := None;
      quit, used, sent := EntryLoop(call, date, time, inputs, replies, fetched);
    }

    /**
     * One pass of the loop `while not done` of `main` from answer `at`:
     * either the loop goes on from `used` with the draft the pass left and
     * nothing sent, or it stops with what `Rounds` gives from `at`.
     */
    method LoopPass(call: string, date: string, time: string, inputs: seq<string>, at: nat,
                    replies: seq<Option<string>>, fetched: Option<seq<string>>)
      returns (stop: bool, quit: bool, used: nat, sent: nat)
      requires Valid() && at <= |inputs|
      modifies this`qso, this`log, this`posted, this`recentQsos
      ensures Valid() && used <= |inputs|
      ensures !stop ==>
                && at < used && sent == 0
                && posted == old(posted) && log == old(log) && recentQsos == old(recentQsos)
                && Rounds(old(qso), date, time, call, inputs, at, replies)
                   == Rounds(qso, date, time, call, inputs, used, replies)
      ensures stop ==> (quit, used, sent, qso) == Rounds(old(qso), date, time, call, inputs, at, replies)
      ensures stop && !quit && qso.None? ==> sent == 0
      ensures sent == 0 ==> posted == old(posted) && log == old(log) && recentQsos == old(recentQsos)
      ensures sent > 0 ==>
                qso.Some? &&
                var adif := Encode(station, call, qso.value);
                && posted == old(posted) + Repeat(adif, sent)
                && log == old(log) + AuditTrail(adif, replies, sent)
                && recentQsos == (if Uploaded(adif, replies, sent - 1)
                                  then Remember(old(recentQsos), call, qso.value, fetched, xmlFields)
                                  else old(recentQsos))
                && (Uploaded(adif, replies, sent - 1) ==> stop && !quit)
    {
      ghost var prev := qso;
      RoundProgress(prev, date, time, call, inputs[at..], replies);
      RoundsStep(prev, date, time, call, inputs, at, replies);
      ghost var round := Round(prev, date, time, call, inputs[at..], replies);
      var r, u, s := QsoPass(call, date, time, inputs[at..], replies, fetched);
      assert (r, u, s, qso) == round;
      used, sent := at + u, s;
      stop := r != PassDone(false);
      quit := r == PassQuit;
      if stop {
        assert (quit, used, sent, qso) == Rounds(prev, date, time, call, inputs, at, replies);
        assert sent > 0 ==> qso.Some? && (Uploaded(Encode(station, call, qso.value), replies, sent - 1) ==> !quit);
      } else {
        assert sent == 0 && Rounds(prev, date, time, call, inputs, at, replies) == Rounds(qso, date, time, call, inputs, used, replies);
        assert posted == old(posted) && log == old(log) && recentQsos == old(recentQsos);
      }
    }

    /**
     * The loop `while not done` of `main`: each round starts from the draft
     * the previous one left, and only the last round can upload.
     */
    method EntryLoop(call: string, date: string, time: string, inputs: seq<string>,
                     replies: seq<Option<string>>, fetched: Option<seq<string>>)
      returns (quit: bool, used: nat, sent: nat)
      requires Valid()
      modifies this`qso, this`log, this`posted, this`recentQsos
      ensures Valid()
      ensures (quit, used, sent, qso) == Rounds(old(qso), date, time, call, inputs, 0, replies)
      ensures !quit && qso.None? ==> sent == 0
      ensures sent == 0 ==> posted == old(posted) && log == old(log) && recentQsos == old(recentQsos)
      ensures sent > 0 ==>
                qso.Some? &&
                var adif := Encode(station, call, qso.value);
                && posted == old(posted) + Repeat(adif, sent)
                && log == old(log) + AuditTrail(adif, replies, sent)
                && recentQsos == (if Uploaded(adif, replies, sent - 1)
                                  then Remember(old(recentQsos), call, qso.value, fetched, xmlFields)
                                  else old(recentQsos))
                && (Uploaded(adif, replies, sent - 1) ==> !quit)
    {
      ghost var goal := Rounds(qso, date, time, call, inputs, 0, replies);
      used := 0;
      while true
        invariant Valid() && used <= |inputs|
        invariant goal == Rounds(qso, date, time, call, inputs, used, replies)
        invariant posted == old(posted) && log == old(log) && recentQsos == old(recentQsos)
        decreases |inputs| - used
      {
        var stop;
        stop, quit, used, sent := LoopPass(call, date, time, inputs, used, replies, fetched);
        if stop {
          return;
        }
      }
    }
  }
}
