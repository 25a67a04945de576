/**
 * The type-ahead filter behind the two currency dropdowns: on each key
 * release the dropdown's list becomes, in table order, every currency code
 * that contains the upper-cased typed text as a substring.
 */
module CurrencyFilter {

  predicate IsLowerAscii(c: char)
  {
    'a' <= c <= 'z'
  }

  /** Upper-casing of one character: ASCII lower-case letters become their capitals. */
  function UpperChar(c: char): (u: char)
    ensures !IsLowerAscii(u)
    ensures IsLowerAscii(c) ==> 'A' <= u <= 'Z' && u as int - 'A' as int == c as int - 'a' as int
    ensures !IsLowerAscii(c) ==> u == c
  {
    if IsLowerAscii(c) then (c as int - 'a' as int + 'A' as int) as char else c
  }

  /** Upper-casing of a string, character by character. */
  function Upper(s: string): (r: string)
    ensures |r| == |s|
    ensures forall i :: 0 <= i < |s| ==> r[i] == UpperChar(s[i])
  {
    if s == [] then [] else [UpperChar(s[0])] + Upper(s[1..])
  }

  /** `needle` occurs in `hay` starting at position `i`. */
  ghost predicate OccursAt(hay: string, needle: string, i: int)
  {
    0 <= i && i + |needle| <= |hay| && hay[i..i + |needle|] == needle
  }

  /** Substring test, `needle in hay`: some suffix of `hay` starts with `needle`. */
  predicate Contains(hay: string, needle: string)
    ensures needle == [] ==> Contains(hay, needle)
    ensures Contains(hay, needle) ==> |needle| <= |hay|
    decreases |hay|
  {
    (|needle| <= |hay| && hay[..|needle|] == needle) || (|hay| > 0 && Contains(hay[1..], needle))
  }

  /** The recursive test agrees with the definition of a substring occurrence, in both directions. */
  lemma {:induction false} ContainsIsSubstring(hay: string, needle: string)
    ensures Contains(hay, needle) <==> exists i :: OccursAt(hay, needle, i)
    decreases |hay|
  {
    if exists i :: OccursAt(hay, needle, i) {
      var i :| OccursAt(hay, needle, i);
      if i > 0 {
        assert hay[1..][i - 1..i - 1 + |needle|] == hay[i..i + |needle|];
        assert OccursAt(hay[1..], needle, i - 1);
        ContainsIsSubstring(hay[1..], needle);
      }
    }
    if Contains(hay, needle) {
      if |needle| <= |hay| && hay[..|needle|] == needle {
        assert OccursAt(hay, needle, 0);
      } else {
        ContainsIsSubstring(hay[1..], needle);
        var i :| OccursAt(hay[1..], needle, i);
        assert hay[i + 1..i + 1 + |needle|] == hay[1..][i..i + |needle|];
        assert OccursAt(hay, needle, i + 1);
      }
    }
  }

  /** A code is offered for the typed text when it contains the text upper-cased. */
  predicate Matches(code: string, typed: string)
    ensures Matches(code, typed) ==> exists i :: OccursAt(code, Upper(typed), i)
    ensures (exists i :: OccursAt(code, Upper(typed), i)) ==> Matches(code, typed)
  {
    ContainsIsSubstring(code, Upper(typed));
    Contains(code, Upper(typed))
  }

  /** The codes kept for the typed text, in their original order. */
  function FilterCodes(codes: seq<string>, typed: string): (r: seq<string>)
    ensures |r| <= |codes|
    ensures forall i :: 0 <= i < |r| ==> r[i] in codes && Matches(r[i], typed)
    ensures forall i :: 0 <= i < |codes| && Matches(codes[i], typed) ==> codes[i] in r
  {
    if codes == [] then []
    else
      var rest := FilterCodes(codes[1..], typed);
      assert forall i :: 0 <= i < |codes| - 1 ==> codes[1..][i] == codes[i + 1];
      if Matches(codes[0], typed) then [codes[0]] + rest else rest
  }

  /** `a` is `b` with some elements removed, the rest kept in order. */
  predicate IsSubsequence<T(==)>(a: seq<T>, b: seq<T>)
    decreases |b|
  {
    a == [] || (b != [] && ((a[0] == b[0] && IsSubsequence(a[1..], b[1..])) || IsSubsequence(a, b[1..])))
  }

  /** The filtered list keeps the table order: it is a subsequence of the codes. */
  lemma {:induction false} FilterKeepsOrder(codes: seq<string>, typed: string)
    ensures IsSubsequence(FilterCodes(codes, typed), codes)
  {
    if codes != [] {
      FilterKeepsOrder(codes[1..], typed);
      var rest := FilterCodes(codes[1..], typed);
      if Matches(codes[0], typed) {
        assert ([codes[0]] + rest)[1..] == rest;
      }
    }
  }

  /** A code is in the filtered list exactly when it is in the table and matches. */
  lemma FilterMembership(codes: seq<string>, typed: string, code: string)
    ensures code in FilterCodes(codes, typed) <==> code in codes && Matches(code, typed)
  {
    var r := FilterCodes(codes, typed);
    if code in r {
      var i :| 0 <= i < |r| && r[i] == code;
    }
  }

  /** Upper-casing twice is upper-casing once. */
  lemma UpperIdempotent(s: string)
    ensures Upper(Upper(s)) == Upper(s)
  {
    assert forall i :: 0 <= i < |s| ==> Upper(Upper(s))[i] == Upper(s)[i];
  }

  /** The case the text is typed in does not matter: "eur" offers the same codes as "EUR". */
  lemma {:induction false} FilterIgnoresCase(codes: seq<string>, typed: string)
    ensures FilterCodes(codes, Upper(typed)) == FilterCodes(codes, typed)
  {
    if codes != [] {
      UpperIdempotent(typed);
      FilterIgnoresCase(codes[1..], typed);
    }
  }

  /** The state of one dropdown (a combobox): its list of choices and its entry text. */
  class Dropdown {
    var values: seq<string>
    var text: string

    constructor (values: seq<string>, text: string)
      ensures this.values == values && this.text == text
    {
      this.values := values;
      this.text := text;
    }
  }
}
