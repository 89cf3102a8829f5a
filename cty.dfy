/**
 * `FileManager.get_cty_row` of the class-split logger: the country row of a
 * call sign in the CTY table, found by trying ever shorter prefixes of the
 * call against the alias column (column 9) of each row.
 */
module Cty {
  import opened Text

  type Row = seq<string>

  /** The row returned when the table is not in use or nothing matches: seven `-`. */
  const Sentinel: Row := ["-", "-", "-", "-", "-", "-", "-"]

  /** The alias column is `row[9]`. */
  const AliasColumn: nat := 9

  /** The lookup result; `IndexError` is what reading column 9 of a short row raises. */
  datatype Lookup = Found(row: Row) | IndexError

  /** One round over the table for one candidate prefix. */
  datatype Round = Hit(row: Row) | Miss | Short

  /** The aliases of a row: column 9 without `;` and `=`, split on single spaces. */
  function Aliases(row: Row): (a: seq<string>)
    requires |row| > AliasColumn
    ensures forall x :: x in a ==> ' ' !in x
  {
    Split(Remove(Remove(row[AliasColumn], ';'), '='), ' ')
  }

  predicate WellFormed(rows: seq<Row>)
  {
    forall i :: 0 <= i < |rows| ==> |rows[i]| > AliasColumn
  }

  /** Some row of a well-formed table lists `p` among its aliases. */
  predicate Listed(rows: seq<Row>, p: string)
    requires WellFormed(rows)
  {
    exists i :: 0 <= i < |rows| && p in Aliases(rows[i])
  }

  /** The inner `for row in self.cty` loop for one candidate. */
  function Scan(rows: seq<Row>, call: string): Round
  {
    if rows == [] then Miss
    else if |rows[0]| <= AliasColumn then Short
    else if call in Aliases(rows[0]) then Hit(rows[0])
    else Scan(rows[1..], call)
  }

  /** The outer `while call:` loop: one character fewer per round, the sentinel once the call is empty. */
  function Resolve(rows: seq<Row>, call: string): Lookup
    decreases |call|
  {
    if call == "" then Found(Sentinel)
    else match Scan(rows, call)
      case Hit(row) => Found(row)
      case Short => IndexError
      case Miss => Resolve(rows, call[..|call| - 1])
  }

  /** `get_cty_row`: the sentinel when the table is not in use, otherwise the prefix search. */
  function CtyRow(checkCty: bool, rows: seq<Row>, call: string): Lookup
  {
    if !checkCty then Found(Sentinel) else Resolve(rows, call)
  }

  /** The nested loops of `get_cty_row`, returning from inside the inner loop. */
  method GetCtyRow(checkCty: bool, cty: seq<Row>, call: string) returns (r: Lookup)
    ensures r == CtyRow(checkCty, cty, call)
  {
    if !checkCty {
      return Found(Sentinel);
    }
    var c := call;
    while c != ""
      invariant Resolve(cty, c) == Resolve(cty, call)
      decreases |c|
    {
      var i := 0;
      while i < |cty|
        invariant 0 <= i <= |cty|
        invariant Scan(cty[i..], c) == Scan(cty, c)
      {
        var row := cty[i];
        assert cty[i..][0] == row && cty[i..][1..] == cty[i + 1..];
        if |row| <= AliasColumn {
          return IndexError;
        }
        var entities := Aliases(row);
        var j := 0;
        while j < |entities|
          invariant 0 <= j <= |entities|
          invariant c !in entities[..j]
        {
          if c == entities[j] {
            return Found(row);
          }
          assert entities[..j + 1] == entities[..j] + [entities[j]];
          j := j + 1;
        }
        assert entities[..j] == entities;
        i := i + 1;
      }
      c := c[..|c| - 1];
    }
    return Found(Sentinel);
  }

  // ---------------------------------------------------------------------
  // Lemmas

  lemma WellFormedTail(rows: seq<Row>)
    requires rows != [] && WellFormed(rows)
    ensures WellFormed(rows[1..])
  {
    assert forall i :: 0 <= i < |rows| - 1 ==> rows[1..][i] == rows[i + 1];
  }

  lemma {:induction false} ScanNotShort(rows: seq<Row>, p: string)
    requires WellFormed(rows)
    ensures !Scan(rows, p).Short?
  {
    if rows != [] {
      WellFormedTail(rows);
      ScanNotShort(rows[1..], p);
    }
  }

  lemma {:induction false} ScanMiss(rows: seq<Row>, p: string)
    requires WellFormed(rows)
    ensures Scan(rows, p).Miss? <==> !Listed(rows, p)
  {
    if rows != [] {
      WellFormedTail(rows);
      ScanMiss(rows[1..], p);
      if p !in Aliases(rows[0]) {
        if Listed(rows, p) {
          var i :| 0 <= i < |rows| && p in Aliases(rows[i]);
          assert rows[1..][i - 1] == rows[i];
        }
        if Listed(rows[1..], p) {
          var i :| 0 <= i < |rows[1..]| && p in Aliases(rows[1..][i]);
          assert rows[i + 1] == rows[1..][i];
        }
      }
    }
  }

  lemma {:induction false} ScanHit(rows: seq<Row>, p: string)
    requires WellFormed(rows)
    ensures Scan(rows, p).Hit? ==>
              exists i :: 0 <= i < |rows| && Scan(rows, p).row == rows[i] && p in Aliases(rows[i])
                && forall j :: 0 <= j < i ==> p !in Aliases(rows[j])
  {
    if rows != [] && p !in Aliases(rows[0]) && Scan(rows, p).Hit? {
      var tail := rows[1..];
      WellFormedTail(rows);
      ScanHit(tail, p);
      var i :| 0 <= i < |tail| && Scan(tail, p).row == tail[i] && p in Aliases(tail[i])
             && forall j :: 0 <= j < i ==> p !in Aliases(tail[j]);
      assert rows[i + 1] == tail[i];
      forall j | 0 <= j < i + 1 ensures p !in Aliases(rows[j]) {
        if j > 0 { assert rows[j] == tail[j - 1]; }
      }
    }
  }

  /** In a well-formed table a round misses exactly when no row lists the candidate, and a hit is the first listing row. */
  lemma ScanSpec(rows: seq<Row>, p: string)
    requires WellFormed(rows)
    ensures !Scan(rows, p).Short?
    ensures Scan(rows, p).Miss? <==> !Listed(rows, p)
    ensures Scan(rows, p).Hit? ==>
              exists i :: 0 <= i < |rows| && Scan(rows, p).row == rows[i] && p in Aliases(rows[i])
                && forall j :: 0 <= j < i ==> p !in Aliases(rows[j])
  {
    ScanNotShort(rows, p);
    ScanMiss(rows, p);
    ScanHit(rows, p);
  }

  /** A well-formed table never makes the lookup fail. */
  lemma {:induction false} NeverShort(rows: seq<Row>, call: string)
    requires WellFormed(rows)
    ensures Resolve(rows, call).Found?
    decreases |call|
  {
    if call != "" {
      ScanSpec(rows, call);
      NeverShort(rows, call[..|call| - 1]);
    }
  }

  /**
   * In a well-formed table the sentinel comes back exactly when no
   * non-empty prefix of the call is listed by any row.
   */
  lemma {:induction false} SentinelIffUnlisted(rows: seq<Row>, call: string)
    requires WellFormed(rows)
    ensures Resolve(rows, call) == Found(Sentinel) <==> forall k :: 1 <= k <= |call| ==> !Listed(rows, call[..k])
    decreases |call|
  {
    if call != "" {
      var c' := call[..|call| - 1];
      ScanSpec(rows, call);
      SentinelIffUnlisted(rows, c');
      assert call[..|call|] == call;
      forall k | 1 <= k <= |c'| ensures c'[..k] == call[..k] { }
      if Scan(rows, call).Hit? {
        var i :| 0 <= i < |rows| && Scan(rows, call).row == rows[i] && call in Aliases(rows[i]);
        assert |rows[i]| != |Sentinel|;
        assert Listed(rows, call[..|call|]);
      }
    }
  }

  /**
   * Unless the sentinel comes back, the row found is the first row listing
   * some prefix of the call, and no longer prefix is listed anywhere.
   */
  lemma {:induction false} LongestPrefixWins(rows: seq<Row>, call: string)
    requires WellFormed(rows)
    ensures Resolve(rows, call) == Found(Sentinel)
            || exists k :: 1 <= k <= |call| && Scan(rows, call[..k]).Hit?
                 && Resolve(rows, call) == Found(Scan(rows, call[..k]).row)
                 && forall k' :: k < k' <= |call| ==> !Listed(rows, call[..k'])
    decreases |call|
  {
    if call != "" {
      var c' := call[..|call| - 1];
      ScanSpec(rows, call);
      assert call[..|call|] == call;
      if Scan(rows, call).Miss? {
        LongestPrefixWins(rows, c');
        if Resolve(rows, c') != Found(Sentinel) {
          var k :| 1 <= k <= |c'| && Scan(rows, c'[..k]).Hit?
                 && Resolve(rows, c') == Found(Scan(rows, c'[..k]).row)
                 && forall k' :: k < k' <= |c'| ==> !Listed(rows, c'[..k']);
          assert c'[..k] == call[..k];
          forall k' | k < k' <= |call| ensures !Listed(rows, call[..k']) {
            if k' < |call| { assert c'[..k'] == call[..k']; }
          }
        }
      }
    }
  }
}
