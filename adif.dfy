/**
 * The ADIF record that `send_qso` posts: data specifiers `<FIELD:LEN>data`
 * with no separators, the station call sign and the contact call sign first,
 * then the form's fields in order, closed by `<eor>`. Values are not escaped.
 * `Decode` is an independent reader that honours the length in each
 * specifier; it is the partner against which the encoder is proved.
 */
module Adif {
  import opened Wrappers
  import opened Text

  /** One entry of the QSO form: the ADIF field name, the prompt shown to the operator and the current value. */
  datatype Field = Field(key: string, prompt: string, value: string)

  /** One data specifier of an ADIF record: field name and data. */
  datatype Pair = Pair(key: string, value: string)

  /** `<key:len(value)>value`. */
  function Tag(key: string, value: string): string
  {
    "<" + key + ":" + NatToString(|value|) + ">" + value
  }

  function EncodePairs(ps: seq<Pair>): string
  {
    if ps == [] then "" else Tag(ps[0].key, ps[0].value) + EncodePairs(ps[1..])
  }

  /** The data specifiers of the form fields, prompts dropped. */
  function Pairs(fs: seq<Field>): (ps: seq<Pair>)
    ensures |ps| == |fs|
    ensures forall i :: 0 <= i < |fs| ==> ps[i] == Pair(fs[i].key, fs[i].value)
  {
    seq(|fs|, i requires 0 <= i < |fs| => Pair(fs[i].key, fs[i].value))
  }

  function Header(station: string, call: string): seq<Pair>
  {
    [Pair("station_callsign", station), Pair("call", call)]
  }

  /** The ADIF payload of an INSERT request. */
  function Encode(station: string, call: string, fs: seq<Field>): string
  {
    EncodePairs(Header(station, call) + Pairs(fs)) + "<eor>"
  }

  /** The text before the first `c` and the text after it, if `c` occurs. */
  function Upto(s: string, c: char): (r: Option<(string, string)>)
    ensures r.None? <==> c !in s
    ensures r.Some? ==> s == r.value.0 + [c] + r.value.1 && c !in r.value.0
  {
    if |s| == 0 then None
    else if s[0] == c then Some(("", s[1..]))
    else
      match Upto(s[1..], c)
      case None => None
      case Some((a, b)) => Some(([s[0]] + a, b))
  }

  /**
   * Reads the data specifier at the front of `s`: the field name runs to the
   * first `:`, the length to the next `>`, and exactly that many characters
   * of data follow. Gives the specifier and the text after it.
   */
  function ReadSpecifier(s: string): (r: Option<(Pair, string)>)
    ensures r.Some? ==> |r.value.1| < |s|
  {
    if |s| == 0 || s[0] != '<' then None
    else
      match Upto(s[1..], ':')
      case None => None
      case Some((key, t)) =>
        match Upto(t, '>')
        case None => None
        case Some((digits, u)) =>
          if '>' in key || digits == "" || !AllDigits(digits) then None
          else
            var n := ParseNat(digits);
            if n > |u| then None else Some((Pair(key, u[..n]), u[n..]))
  }

  /** Reads a record: data specifiers up to a closing `<eor>`. */
  function Decode(s: string): Option<seq<Pair>>
    decreases |s|
  {
    if s == "<eor>" then Some([])
    else
      match ReadSpecifier(s)
      case None => None
      case Some((p, after)) =>
        match Decode(after)
        case None => None
        case Some(rest) => Some([p] + rest)
  }

  /** A field name that the specifier syntax can carry. */
  predicate PlainKey(k: string) { ':' !in k && '>' !in k }

  // ---------------------------------------------------------------------
  // Lemmas

  /** `Upto` splits at the first `c`, wherever it is. */
  lemma UptoAt(x: string, c: char, n: nat)
    requires n < |x| && x[n] == c && c !in x[..n]
    ensures Upto(x, c) == Some((x[..n], x[n + 1..]))
  {
    assert c in x;
    var (a, b) := Upto(x, c).value;
    assert x[..|a|] == a && x[|a|] == c;
    assert forall m :: 0 <= m < n ==> x[m] != c by { assert forall m :: 0 <= m < n ==> x[m] in x[..n]; }
    assert forall m :: 0 <= m < |a| ==> x[m] != c by { assert forall m :: 0 <= m < |a| ==> x[m] in a; }
  }

  /** The two header specifiers, as `send_qso` spells them. */
  lemma EncodeHeader(station: string, call: string)
    ensures EncodePairs(Header(station, call))
            == "<station_callsign:" + NatToString(|station|) + ">" + station
               + ("<call:" + NatToString(|call|) + ">" + call)
  {
    assert "<station_callsign:" == "<" + "station_callsign" + ":";
    assert "<call:" == "<" + "call" + ":";
    assert Header(station, call)[1..] == [Pair("call", call)];
    assert EncodePairs([Pair("call", call)]) == Tag("call", call);
  }

  lemma AppendAssoc(a: string, b: string, c: string)
    ensures (a + b) + c == a + (b + c)
  {
  }

  /** Appending a specifier to a record appends its text. */
  lemma {:induction false} EncodePairsSnoc(ps: seq<Pair>, p: Pair)
    ensures EncodePairs(ps + [p]) == EncodePairs(ps) + Tag(p.key, p.value)
  {
    if ps != [] {
      assert (ps + [p])[1..] == ps[1..] + [p];
      EncodePairsSnoc(ps[1..], p);
    }
  }

  /** The specifier `Tag(k, v)` is read back from the front of any text. */
  lemma ReadTag(k: string, v: string, rest: string)
    requires PlainKey(k)
    ensures ReadSpecifier(Tag(k, v) + rest) == Some((Pair(k, v), rest))
  {
    var d := NatToString(|v|);
    var w := v + rest;
    var z := ">" + w;
    var y := d + z;
    var t := ":" + y;
    var x := k + t;
    AppendAssoc("<" + k + ":" + d + ">", v, rest);
    AppendAssoc("<" + k + ":" + d, ">", w);
    AppendAssoc("<" + k + ":", d, z);
    AppendAssoc("<" + k, ":", y);
    AppendAssoc("<", k, t);
    var s := Tag(k, v) + rest;
    assert s == "<" + x;
    assert s[1..] == x;
    assert x[..|k|] == k && x[|k|] == ':' && x[|k| + 1..] == y;
    UptoAt(x, ':', |k|);
    assert y[..|d|] == d && y[|d|] == '>' && y[|d| + 1..] == w;
    assert '>' !in d by { assert !IsDigit('>'); }
    UptoAt(y, '>', |d|);
    ParseNatToString(|v|);
    assert w[..|v|] == v && w[|v|..] == rest;
    assert Upto(s[1..], ':') == Some((k, y));
    assert Upto(y, '>') == Some((d, w));
    assert d != "" && AllDigits(d) && '>' !in k;
  }

  /** One specifier in front of a record is read back as that specifier. */
  lemma DecodeTag(k: string, v: string, rest: string, ps: seq<Pair>)
    requires PlainKey(k) && Decode(rest) == Some(ps)
    ensures Decode(Tag(k, v) + rest) == Some([Pair(k, v)] + ps)
  {
    var s := Tag(k, v) + rest;
    ReadTag(k, v, rest);
    assert s[|k| + 1] == ':';
    assert ':' in s && ':' !in "<eor>";
  }

  /** A record with one more specifier in front is read back with that specifier in front. */
  lemma DecodeCons(p: Pair, tail: seq<Pair>)
    requires PlainKey(p.key) && Decode(EncodePairs(tail) + "<eor>") == Some(tail)
    ensures Decode(EncodePairs([p] + tail) + "<eor>") == Some([p] + tail)
  {
    var rest := EncodePairs(tail) + "<eor>";
    assert ([p] + tail)[1..] == tail;
    assert EncodePairs([p] + tail) == Tag(p.key, p.value) + EncodePairs(tail);
    AppendAssoc(Tag(p.key, p.value), EncodePairs(tail), "<eor>");
    DecodeTag(p.key, p.value, rest, tail);
  }

  /** Every record of plain field names is read back exactly, whatever its data holds. */
  lemma {:induction false} DecodeEncodePairs(ps: seq<Pair>)
    requires forall p :: p in ps ==> PlainKey(p.key)
    ensures Decode(EncodePairs(ps) + "<eor>") == Some(ps)
  {
    if ps == [] {
      assert EncodePairs(ps) + "<eor>" == "<eor>";
    } else {
      assert ps[0] in ps;
      assert forall q :: q in ps[1..] ==> q in ps;
      DecodeEncodePairs(ps[1..]);
      DecodeCons(ps[0], ps[1..]);
      assert [ps[0]] + ps[1..] == ps;
    }
  }

  /**
   * The payload of `send_qso` decodes to the station call, the contact call
   * and the form's fields in order, values unchanged. Values may contain `<`
   * and `>`: they are not escaped, and a reader that honours the lengths
   * does not need them to be.
   */
  lemma DecodeEncode(station: string, call: string, fs: seq<Field>)
    requires forall f :: f in fs ==> PlainKey(f.key)
    ensures Decode(Encode(station, call, fs)) == Some(Header(station, call) + Pairs(fs))
  {
    var ps := Header(station, call) + Pairs(fs);
    assert PlainKey("station_callsign") && PlainKey("call");
    assert forall i :: 0 <= i < |fs| ==> PlainKey(Pairs(fs)[i].key) by {
      assert forall i :: 0 <= i < |fs| ==> fs[i] in fs;
    }
    forall p | p in ps ensures PlainKey(p.key) {
      var i :| 0 <= i < |ps| && ps[i] == p;
      if i >= 2 { assert p == Pairs(fs)[i - 2]; }
    }
    DecodeEncodePairs(ps);
  }
}
