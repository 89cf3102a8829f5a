/**
 * The logbook API replies as the logger reads them: the classification of
 * an INSERT reply, the audit-log line written for it, and the line-by-line
 * reading of a FETCH reply into one mapping per blank-line-separated record.
 * Both revisions of the logger share these rules.
 */
module Logbook {
  import opened Wrappers
  import opened Text

  // ---------------------------------------------------------------------
  // INSERT replies

  const Marker: string := "LOGID="

  /** A match of `LOGID=(\d+)` starts at index `k`: the marker, then at least one digit. */
  predicate IdAt(s: string, k: nat)
  {
    k + 6 < |s| && s[k..k + 6] == Marker && IsDigit(s[k + 6])
  }

  /** The match at `k` is the leftmost one, the one `re.search` finds. */
  predicate FirstIdAt(s: string, k: nat)
  {
    IdAt(s, k) && forall j: nat :: j < k ==> !IdAt(s, j)
  }

  /**
   * `re.search('LOGID=(\d+)', s).group(1)`: the digits after the first
   * `LOGID=` that is followed by a digit, or nothing.
   */
  function LogId(s: string): (r: Option<string>)
    ensures r.Some? ==> r.value != "" && AllDigits(r.value) && Contains(s, Marker + r.value)
    decreases |s|
  {
    if |s| == 0 then None
    else if IdAt(s, 0) then
      var d := DigitRun(s[6..]);
      assert s[..6 + |d|] == Marker + d;
      Some(d)
    else LogId(s[1..])
  }

  /**
   * The log id `send_qso` takes from a reply: none when the reply reports
   * `STATUS=FAIL`, otherwise the first `LOGID=<digits>`, if any.
   */
  function Classify(reply: string): (r: Option<string>)
    ensures Contains(reply, "STATUS=FAIL") ==> r.None?
    ensures r.Some? ==> r.value != "" && AllDigits(r.value) && Contains(reply, Marker + r.value)
  {
    if Contains(reply, "STATUS=FAIL") then None else LogId(reply)
  }

  const SuccessLabel: string := "SUCCESS: "
  const FailedLabel: string := "FAILED:  "

  /** The line appended to the audit log for one reply: status label, the ADIF payload, newline. */
  function AuditLine(logid: Option<string>, adif: string): string
  {
    (if logid.Some? then SuccessLabel else FailedLabel) + adif + "\n"
  }

  /** What one INSERT leaves behind: the extracted log id and the audit line, if one is written. */
  datatype Submission = Submission(logid: Option<string>, audit: Option<string>)

  /**
   * The reply handling of `send_qso`: no reply (or an empty one) yields no id
   * and writes nothing; any other reply is classified and logged once.
   */
  function Submit(adif: string, reply: Option<string>): (r: Submission)
    ensures r.audit.Some? <==> reply.Some? && reply.value != ""
    ensures r.audit.Some? ==> r.audit.value == AuditLine(r.logid, adif)
    ensures r.logid.Some? ==> reply.Some? && !Contains(reply.value, "STATUS=FAIL")
                              && r.logid.value != "" && AllDigits(r.logid.value)
                              && Contains(reply.value, Marker + r.logid.value)
  {
    if reply.None? || reply.value == "" then Submission(None, None)
    else
      var id := Classify(reply.value);
      Submission(id, Some(AuditLine(id, adif)))
  }

  /** The audit lines one submission appends to the log. */
  function AuditLines(s: Submission): seq<string>
  {
    if s.audit.Some? then [s.audit.value] else []
  }

  // ---------------------------------------------------------------------
  // FETCH replies

  const Open: string := "&lt;"
  const Close: string := "&gt;"

  /** `re.sub(':.*&gt;', ':', s)`: from the first `:` to the end of the last `&gt;` after it becomes one `:`. */
  function CollapseTag(s: string): string
  {
    var i := IndexOf(s, ':');
    var j := LastIndexOfSub(s, Close);
    if 0 <= i < j then s[..i] + ":" + s[j + 4..] else s
  }

  /** A reply line with `&lt;` deleted and the length part of its tag collapsed. */
  function Unescape(line: string): string
  {
    CollapseTag(DeleteAll(line, Open))
  }

  /** `re.sub(':.*$', '', s)` on the unescaped line: the text before its first `:`. */
  function LineKey(line: string): (k: string)
    ensures ':' !in k
  {
    var u := Unescape(line);
    var i := IndexOf(u, ':');
    if i < 0 then u else u[..i]
  }

  /** `re.sub('^.*:', '', s)` on the unescaped line: the text after its last `:`. */
  function LineValue(line: string): (v: string)
    ensures ':' !in v
  {
    var u := Unescape(line);
    var i := LastIndexOf(u, ':');
    if i < 0 then u else u[i + 1..]
  }

  /** A line is read only if some configured field `f` occurs in it as `f:`. */
  predicate Interesting(line: string, fields: seq<string>)
  {
    exists f :: f in fields && Contains(line, f + ":")
  }

  /** Iterating over a string yields its characters as one-character strings. */
  function CharFields(config: string): (fs: seq<string>)
    ensures |fs| == |config|
    ensures forall i :: 0 <= i < |config| ==> fs[i] == [config[i]]
  {
    seq(|config|, i requires 0 <= i < |config| => [config[i]])
  }

  function CountEmpty(lines: seq<string>): nat
  {
    if lines == [] then 0
    else CountEmpty(lines[..|lines| - 1]) + (if lines[|lines| - 1] == "" then 1 else 0)
  }

  predicate NoBlank(lines: seq<string>) { forall i :: 0 <= i < |lines| ==> lines[i] != "" }

  /** One line of a FETCH reply applied to the records read so far. */
  function Step(rs: seq<map<string, string>>, line: string, fields: seq<string>): seq<map<string, string>>
    requires |rs| > 0
  {
    if line == "" then rs + [map[]]
    else if Interesting(line, fields) then rs[..|rs| - 1] + [rs[|rs| - 1][LineKey(line) := LineValue(line)]]
    else rs
  }

  /** The records of a FETCH reply: `[{}]`, one more per blank line, fields into the last one. */
  function Records(lines: seq<string>, fields: seq<string>): (r: seq<map<string, string>>)
    ensures |r| == 1 + CountEmpty(lines)
  {
    if lines == [] then [map[]]
    else Step(Records(lines[..|lines| - 1], fields), lines[|lines| - 1], fields)
  }

  /** The mapping read from one record's lines, later lines overriding earlier ones. */
  function Group(g: seq<string>, fields: seq<string>): map<string, string>
  {
    if g == [] then map[]
    else
      var m := Group(g[..|g| - 1], fields);
      var line := g[|g| - 1];
      if Interesting(line, fields) then m[LineKey(line) := LineValue(line)] else m
  }

  // ---------------------------------------------------------------------
  // The parse loop of get_qsos

  /** The parse loop of `get_qsos` over the lines of a FETCH reply (none when there is no reply), the same in both revisions. */
  method GetQsos(reply: Option<seq<string>>, fields: seq<string>) returns (result: seq<map<string, string>>)
    ensures result == Records(if reply.Some? then reply.value else [], fields)
  {
    result := [map[]];
    if reply.Some? {
      var lines := reply.value;
      for i := 0 to |lines|
        invariant result == Records(lines[..i], fields)
      {
        var resp := lines[i];
        assert lines[..i + 1][..i] == lines[..i];
        assert Records(lines[..i + 1], fields) == Step(result, resp, fields);
        if resp == "" {
          result := result + [map[]];
        } else if Interesting(resp, fields) {
          var key := LineKey(resp);
          var value := LineValue(resp);
          assert result[..|result| - 1] + [result[|result| - 1][key := value]] == result[|result| - 1 := result[|result| - 1][key := value]];
          result := result[|result| - 1 := result[|result| - 1][key := value]];
        }
      }
      assert lines[..|lines|] == lines;
    }
  }

  // ---------------------------------------------------------------------
  // Lemmas: INSERT

  lemma {:induction false} DigitRunOf(d: string, rest: string)
    requires AllDigits(d) && (rest == "" || !IsDigit(rest[0]))
    ensures DigitRun(d + rest) == d
  {
    if d != [] {
      assert d[0] in d;
      assert (d + rest)[1..] == d[1..] + rest;
      assert forall c :: c in d[1..] ==> c in d;
      DigitRunOf(d[1..], rest);
      assert [d[0]] + d[1..] == d;
    }
  }

  /** A reply that starts with the marker and digits yields exactly those digits. */
  lemma LogIdHere(d: string, rest: string)
    requires d != "" && AllDigits(d) && (rest == "" || !IsDigit(rest[0]))
    ensures LogId(Marker + (d + rest)) == Some(d)
  {
    var s := Marker + (d + rest);
    assert s[..6] == Marker && s[6..] == d + rest;
    assert s[6] == d[0] && d[0] in d;
    DigitRunOf(d, rest);
  }

  /** Matches of the marker in `s[1..]` are those of `s`, one position earlier. */
  lemma IdAtShift(s: string, k: nat)
    requires |s| > 0
    ensures IdAt(s, k + 1) <==> IdAt(s[1..], k)
  {
    if k + 7 < |s| {
      assert s[k + 1..k + 7] == s[1..][k..k + 6];
    }
  }

  /**
   * The search finds an id exactly when some `LOGID=` is followed by a
   * digit, and then it is the whole digit run after the leftmost one.
   */
  lemma {:induction false} LogIdSpec(s: string)
    ensures LogId(s).None? <==> forall k: nat :: k < |s| ==> !IdAt(s, k)
    ensures LogId(s).Some? ==> exists k: nat :: FirstIdAt(s, k) && LogId(s).value == DigitRun(s[k + 6..])
    decreases |s|
  {
    if |s| > 0 {
      if IdAt(s, 0) {
        assert FirstIdAt(s, 0);
      } else {
        var t := s[1..];
        LogIdSpec(t);
        forall k: nat ensures IdAt(s, k + 1) <==> IdAt(t, k) {
          IdAtShift(s, k);
        }
        if LogId(t).Some? {
          var k: nat :| FirstIdAt(t, k) && LogId(t).value == DigitRun(t[k + 6..]);
          assert s[k + 1 + 6..] == t[k + 6..];
          forall j: nat | j < k + 1 ensures !IdAt(s, j) {
            if j > 0 {
              assert !IdAt(t, j - 1);
            }
          }
          assert FirstIdAt(s, k + 1);
        } else {
          forall k: nat | k < |s| ensures !IdAt(s, k) {
            if k > 0 {
              assert !IdAt(t, k - 1);
            }
          }
        }
      }
    }
  }

  /** Two leftmost matches are the same match. */
  lemma FirstIdUnique(s: string, j: nat, k: nat)
    requires FirstIdAt(s, j) && FirstIdAt(s, k)
    ensures j == k
  {
  }

  /** The id is the whole digit run after the first `LOGID=` when no match of the pattern starts before it. */
  lemma LogIdFirst(p: string, d: string, rest: string)
    requires forall k: nat :: k < |p| ==> !IdAt(p + (Marker + (d + rest)), k)
    requires d != "" && AllDigits(d) && (rest == "" || !IsDigit(rest[0]))
    ensures LogId(p + (Marker + (d + rest))) == Some(d)
  {
    var s := p + (Marker + (d + rest));
    assert s[|p|..|p| + 6] == Marker && s[|p| + 6..] == d + rest;
    assert s[|p| + 6] == d[0] && d[0] in d;
    assert FirstIdAt(s, |p|);
    LogIdSpec(s);
    var k: nat :| FirstIdAt(s, k) && LogId(s).value == DigitRun(s[k + 6..]);
    FirstIdUnique(s, k, |p|);
    DigitRunOf(d, rest);
  }

  /** A reply without `LOGID=` carries no id. */
  lemma {:induction false} LogIdAbsent(s: string)
    requires !Contains(s, Marker)
    ensures LogId(s) == None
    decreases |s|
  {
    if |s| > 0 {
      LogIdAbsent(s[1..]);
    }
  }

  /** A failure reply yields no id even when its reason text holds a `LOGID=` with digits. */
  lemma FailureWins(reason: string)
    ensures Classify("STATUS=FAIL&REASON=" + reason) == None
  {
    assert "STATUS=FAIL&REASON=" + reason == "" + "STATUS=FAIL" + ("&REASON=" + reason);
    ContainsMiddle("", "STATUS=FAIL", "&REASON=" + reason);
  }

  /**
   * `send_qso` over every reply: no id exactly when the reply reports
   * `STATUS=FAIL` or has no `LOGID=` followed by a digit; otherwise the
   * digit run of the leftmost such match.
   */
  lemma ClassifySpec(reply: string)
    ensures Classify(reply).None? <==>
              Contains(reply, "STATUS=FAIL") || forall k: nat :: k < |reply| ==> !IdAt(reply, k)
    ensures Classify(reply).Some? ==>
              exists k: nat :: FirstIdAt(reply, k) && Classify(reply).value == DigitRun(reply[k + 6..])
  {
    LogIdSpec(reply);
  }

  /** A reply that does not report failure yields the digits of its first `LOGID=`. */
  lemma SuccessYieldsId(p: string, d: string, rest: string)
    requires forall k: nat :: k < |p| ==> !IdAt(p + (Marker + (d + rest)), k)
    requires d != "" && AllDigits(d) && (rest == "" || !IsDigit(rest[0]))
    requires !Contains(p + (Marker + (d + rest)), "STATUS=FAIL")
    ensures Classify(p + (Marker + (d + rest))) == Some(d)
  {
    LogIdFirst(p, d, rest);
  }

  /**
   * An audit line starts with the success label exactly when an id was
   * extracted, and carries the exact payload between its label and newline.
   */
  lemma AuditLineParts(logid: Option<string>, adif: string)
    ensures var line := AuditLine(logid, adif);
            && |line| == |adif| + 10
            && (line[..9] == SuccessLabel <==> logid.Some?)
            && line[9..|line| - 1] == adif
  {
    var line := AuditLine(logid, adif);
    assert line[..9] == if logid.Some? then SuccessLabel else FailedLabel;
    assert SuccessLabel[1] != FailedLabel[1];
  }

  // ---------------------------------------------------------------------
  // Lemmas: FETCH

  /** A first character other than `&` cannot start an escape. */
  lemma OpenSkip(s: string)
    requires |s| > 0 && s[0] != '&'
    ensures Contains(s, Open) == Contains(s[1..], Open)
  {
    assert !StartsWith(s, Open) by {
      if |s| >= 4 { assert s[..4][0] != Open[0]; }
    }
  }

  lemma {:induction false} NoOpenTag(a: string, b: string)
    requires '&' !in a && '&' !in b
    ensures !Contains(a + (Close + b), Open)
    decreases |a|
  {
    var s := a + (Close + b);
    if a == [] {
      assert s == Close + b;
      assert !StartsWith(s, Open) by {
        if |s| >= 4 { assert s[..4][1] != Open[1]; }
      }
      var t := Close[1..] + b;
      assert s[1..] == t;
      assert '&' !in t by { assert forall i :: 0 <= i < |t| ==> t[i] == (if i < 3 then Close[1..][i] else b[i - 3]); }
      NotContainsFirst(t, Open);
    } else {
      assert a[0] in a;
      assert s[1..] == a[1..] + (Close + b);
      OpenSkip(s);
      NoOpenTag(a[1..], b);
    }
  }

  lemma LastCloseTag(a: string, b: string)
    requires '&' !in b
    ensures LastIndexOfSub(a + (Close + b), Close) == |a|
  {
    assert Close[0] == '&' && Close[1..] == "gt;";
    LastOccurrence(a, Close, b);
  }

  lemma DeleteLeadingOpen(x: string)
    requires !Contains(x, Open)
    ensures DeleteAll(Open + x, Open) == x
  {
    assert (Open + x)[..4] == Open && (Open + x)[4..] == x;
    DeleteAllAbsent(x, Open);
  }

  lemma CollapseKeyValue(k: string, n: string, v: string)
    requires ':' !in k && '&' !in v
    ensures CollapseTag(k + ":" + n + (Close + v)) == k + ":" + v
  {
    var h := k + ":" + n;
    var x := h + (Close + v);
    assert x == k + [':'] + (n + (Close + v));
    IndexOfSplit(k, ':', n + (Close + v));
    assert IndexOf(x, ':') == |k|;
    LastCloseTag(h, v);
    assert LastIndexOfSub(x, Close) == |h|;
    assert x[..|k|] == k && x[|h| + 4..] == v;
    assert CollapseTag(x) == x[..|k|] + ":" + x[|h| + 4..];
  }

  /** Unescaping a tag line leaves its key, one `:` and its value. */
  lemma UnescapeTag(k: string, n: string, v: string)
    requires ':' !in k && '&' !in k && '&' !in n && '&' !in v
    ensures Unescape(Open + k + ":" + n + Close + v) == k + ":" + v
  {
    var h := k + ":" + n;
    assert Open + k + ":" + n + Close + v == Open + (h + (Close + v));
    assert '&' !in h;
    NoOpenTag(h, v);
    DeleteLeadingOpen(h + (Close + v));
    CollapseKeyValue(k, n, v);
  }

  /**
   * A tag line `&lt;key:len&gt;value` of a FETCH reply is read as key and
   * value when neither holds `:` and nothing holds `&`.
   */
  lemma FetchLine(k: string, n: string, v: string)
    requires ':' !in k && '&' !in k && '&' !in n && ':' !in v && '&' !in v
    ensures LineKey(Open + k + ":" + n + Close + v) == k
    ensures LineValue(Open + k + ":" + n + Close + v) == v
  {
    UnescapeTag(k, n, v);
    assert k + ":" + v == k + [':'] + v;
    IndexOfSplit(k, ':', v);
    LastIndexOfSplit(k, ':', v);
  }

  /** A value holding `:` loses everything up to its last `:`. */
  lemma ColonInValue(k: string, n: string, a: string, b: string)
    requires ':' !in k && '&' !in k && '&' !in n && '&' !in a && ':' !in b && '&' !in b
    ensures LineValue(Open + k + ":" + n + Close + (a + ":" + b)) == b
  {
    var v := a + ":" + b;
    assert '&' !in v;
    UnescapeTag(k, n, v);
    assert k + ":" + v == (k + ":" + a) + [':'] + b;
    LastIndexOfSplit(k + ":" + a, ':', b);
  }

  /** The records read so far are kept; a line only touches the last one or adds one. */
  lemma StepAppend(xs: seq<map<string, string>>, ys: seq<map<string, string>>, line: string, fields: seq<string>)
    requires |ys| > 0
    ensures Step(xs + ys, line, fields) == xs + Step(ys, line, fields)
  {
    if line != "" && Interesting(line, fields) {
      assert (xs + ys)[..|xs + ys| - 1] == xs + ys[..|ys| - 1];
    }
  }

  /** A blank line cuts a reply into two replies read independently. */
  lemma {:induction false} RecordsSplit(a: seq<string>, b: seq<string>, fields: seq<string>)
    ensures Records(a + [""] + b, fields) == Records(a, fields) + Records(b, fields)
    decreases |b|
  {
    if b == [] {
      assert a + [""] + b == a + [""];
      assert (a + [""])[..|a|] == a;
    } else {
      var b' := b[..|b| - 1];
      assert (a + [""] + b)[..|a + [""] + b| - 1] == a + [""] + b';
      RecordsSplit(a, b', fields);
      StepAppend(Records(a, fields), Records(b', fields), b[|b| - 1], fields);
    }
  }

  /** The lines of one record, with no blank line among them, give one mapping. */
  lemma {:induction false} RecordsGroup(g: seq<string>, fields: seq<string>)
    requires NoBlank(g)
    ensures Records(g, fields) == [Group(g, fields)]
  {
    if g != [] {
      RecordsGroup(g[..|g| - 1], fields);
    }
  }

  /** Three blank-separated groups give three mappings in order, even an empty group. */
  lemma ThreeRecords(g1: seq<string>, g2: seq<string>, g3: seq<string>, fields: seq<string>)
    requires NoBlank(g1) && NoBlank(g2) && NoBlank(g3)
    ensures Records(g1 + [""] + g2 + [""] + g3, fields)
            == [Group(g1, fields), Group(g2, fields), Group(g3, fields)]
  {
    RecordsSplit(g1 + [""] + g2, g3, fields);
    RecordsSplit(g1, g2, fields);
    RecordsGroup(g1, fields);
    RecordsGroup(g2, fields);
    RecordsGroup(g3, fields);
  }

  /** Every key of a record comes from one of its lines that names a configured field. */
  lemma {:induction false} GroupKeys(g: seq<string>, fields: seq<string>, k: string)
    requires k in Group(g, fields)
    ensures exists i :: 0 <= i < |g| && Interesting(g[i], fields) && LineKey(g[i]) == k
  {
    var line := g[|g| - 1];
    if Interesting(line, fields) && LineKey(line) == k {
    } else {
      GroupKeys(g[..|g| - 1], fields, k);
      var i :| 0 <= i < |g| - 1 && Interesting(g[..|g| - 1][i], fields) && LineKey(g[..|g| - 1][i]) == k;
      assert g[i] == g[..|g| - 1][i];
    }
  }

  /**
   * Reading the configured names character by character accepts every line
   * that the names themselves accept, whenever each name's last character is
   * in the configuration text.
   */
  lemma CharFilterAdmits(line: string, fields: seq<string>, config: string)
    requires Interesting(line, fields)
    requires forall f :: f in fields ==> f != "" && f[|f| - 1] in config
    ensures Interesting(line, CharFields(config))
  {
    var f :| f in fields && Contains(line, f + ":");
    var c := f[|f| - 1];
    var i :| 0 <= i < |config| && config[i] == c;
    assert f + ":" == f[..|f| - 1] + ([c] + ":");
    ContainsInner(line, f[..|f| - 1], [c] + ":");
    assert CharFields(config)[i] == [c];
  }

  lemma {:induction false} ContainsInner(s: string, a: string, b: string)
    requires Contains(s, a + b)
    ensures Contains(s, b)
    decreases |s|
  {
    if StartsWith(s, a + b) {
      assert s[|a|..] == b + s[|a + b|..];
      assert s == s[..|a|] + b + s[|a + b|..];
      ContainsMiddle(s[..|a|], b, s[|a + b|..]);
    } else {
      ContainsInner(s[1..], a, b);
    }
  }
}
