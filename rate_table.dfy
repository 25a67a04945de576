/**
 * The table of exchange rates the converter fetches once at start-up: each
 * currency code paired with its rate relative to a fixed base currency.  The
 * table is kept as a sequence of pairs in insertion order, because both the
 * dropdown filter and the chart walk the codes in the order the service
 * returned them, and key lookup returns the rate of the first entry with
 * that code (a table that came from a dictionary has distinct codes).
 */
module RateTable {

  type Table = seq<(string, real)>

  /** The codes of the table, in table order (the keys of the dictionary). */
  function Codes(t: Table): (r: seq<string>)
    ensures |r| == |t|
    ensures forall i :: 0 <= i < |t| ==> r[i] == t[i].0
  {
    if t == [] then [] else [t[0].0] + Codes(t[1..])
  }

  /** Key membership: `code in rates`. */
  predicate HasCode(t: Table, code: string)
    ensures HasCode(t, code) <==> exists i :: 0 <= i < |t| && t[i].0 == code
  {
    code in Codes(t)
  }

  /** Every code occurs once, as in a dictionary. */
  ghost predicate DistinctCodes(t: Table)
  {
    forall i, j :: 0 <= i < j < |t| ==> t[i].0 != t[j].0
  }

  /** A listed code has a non-zero rate, so dividing by that rate is defined; an unlisted code is never divided by. */
  predicate NonZeroRateOf(t: Table, code: string)
  {
    HasCode(t, code) ==> Get(t, code) != 0.0
  }

  /** Key lookup: `rates[code]`, the rate of the first entry holding `code`. */
  function Get(t: Table, code: string): (r: real)
    requires HasCode(t, code)
    ensures exists i :: 0 <= i < |t| && t[i] == (code, r)
  {
    if t[0].0 == code then t[0].1
    else
      assert Codes(t) == [t[0].0] + Codes(t[1..]);
      Get(t[1..], code)
  }

  /** In a table with distinct codes, looking up the code of entry `i` gives that entry's rate. */
  lemma {:induction false} GetAt(t: Table, i: nat)
    requires DistinctCodes(t)
    requires i < |t|
    ensures HasCode(t, t[i].0)
    ensures Get(t, t[i].0) == t[i].1
  {
    assert Codes(t)[i] == t[i].0;
    if i > 0 {
      assert t[0].0 != t[i].0;
      var rest := t[1..];
      assert rest[i - 1] == t[i];
      assert DistinctCodes(rest) by {
        forall a, b | 0 <= a < b < |rest| ensures rest[a].0 != rest[b].0 {
          assert rest[a] == t[a + 1] && rest[b] == t[b + 1];
        }
      }
      GetAt(rest, i - 1);
    }
  }
}
