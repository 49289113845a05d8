/**
 * Text operations behind the catalogue query: the lower-casing done by the
 * database function `Lower` and by the `icontains` lookup, the order in which
 * the database compares text, and substring search. Case mapping is ASCII.
 */
module Strings {

  /** Lower-cases an ASCII capital letter and leaves every other character alone. */
  function LowerChar(c: char): char
  {
    if 'A' <= c <= 'Z' then (c as int - 'A' as int + 'a' as int) as char else c
  }

  /** Lower-cases a whole string, character by character. */
  function Lower(s: string): string
  {
    seq(|s|, i requires 0 <= i < |s| => LowerChar(s[i]))
  }

  // ---------------------------------------------------------------------------
  // Lexicographic order on text, by character code
  // ---------------------------------------------------------------------------

  /** `a` comes no later than `b` in lexicographic order of character codes. */
  predicate StrLe(a: string, b: string)
    decreases |a|
  {
    a == [] || (b != [] && (a[0] < b[0] || (a[0] == b[0] && StrLe(a[1..], b[1..]))))
  }

  lemma {:induction false} StrLeReflexive(a: string)
    ensures StrLe(a, a)
    decreases |a|
  {
    if a != [] {
      StrLeReflexive(a[1..]);
    }
  }

  lemma {:induction false} StrLeTotal(a: string, b: string)
    ensures StrLe(a, b) || StrLe(b, a)
    decreases |a|
  {
    if a != [] && b != [] && a[0] == b[0] {
      StrLeTotal(a[1..], b[1..]);
    }
  }

  lemma {:induction false} StrLeTransitive(a: string, b: string, c: string)
    requires StrLe(a, b) && StrLe(b, c)
    ensures StrLe(a, c)
    decreases |a|
  {
    if a != [] && a[0] == b[0] && b[0] == c[0] {
      StrLeTransitive(a[1..], b[1..], c[1..]);
    }
  }

  lemma {:induction false} StrLeAntisymmetric(a: string, b: string)
    requires StrLe(a, b) && StrLe(b, a)
    ensures a == b
    decreases |a|
  {
    if a != [] {
      StrLeAntisymmetric(a[1..], b[1..]);
      assert a == [a[0]] + a[1..] && b == [b[0]] + b[1..];
    }
  }

  // ---------------------------------------------------------------------------
  // Substring search
  // ---------------------------------------------------------------------------

  /** `needle` occurs in `hay` starting at offset `i`. */
  ghost predicate OccursAt(needle: string, hay: string, i: int)
  {
    0 <= i && i + |needle| <= |hay| && hay[i..i + |needle|] == needle
  }

  /** `needle` is a substring of `hay`: the meaning of SQL `LIKE '%needle%'`. */
  ghost predicate Occurs(needle: string, hay: string)
  {
    exists i :: OccursAt(needle, hay, i)
  }

  /** An occurrence in the tail of `hay` is an occurrence in `hay`, one place later, and back. */
  lemma OccursAtShift(needle: string, hay: string, i: int)
    requires hay != [] && 0 <= i
    ensures OccursAt(needle, hay[1..], i) <==> OccursAt(needle, hay, i + 1)
  {
    if i + |needle| <= |hay| - 1 {
      assert hay[1..][i..i + |needle|] == hay[i + 1..i + 1 + |needle|];
    }
  }

  /** Substring test, scanning `hay` from the left. */
  function Contains(hay: string, needle: string): (r: bool)
    ensures r <==> Occurs(needle, hay)
    decreases |hay|
  {
    if |needle| <= |hay| && hay[..|needle|] == needle then
      assert OccursAt(needle, hay, 0);
      true
    else if hay == [] then
      false
    else
      ContainsStep(hay, needle);
      Contains(hay[1..], needle)
  }

  /** When `needle` is not a prefix of a non-empty `hay`, it occurs in `hay` exactly when it occurs in its tail. */
  lemma ContainsStep(hay: string, needle: string)
    requires hay != []
    requires !(|needle| <= |hay| && hay[..|needle|] == needle)
    ensures Occurs(needle, hay) <==> Occurs(needle, hay[1..])
  {
    if Occurs(needle, hay) {
      var i :| OccursAt(needle, hay, i);
      assert i != 0;
      OccursAtShift(needle, hay, i - 1);
    }
    if Occurs(needle, hay[1..]) {
      var i :| OccursAt(needle, hay[1..], i);
      OccursAtShift(needle, hay, i);
    }
  }

  /** Every character of a needle that occurs in `hay` is a character of `hay`. */
  lemma OccursKeepsChars(needle: string, hay: string, c: char)
    requires Occurs(needle, hay) && c in needle
    ensures c in hay
  {
    var i :| OccursAt(needle, hay, i);
    var k :| 0 <= k < |needle| && needle[k] == c;
    assert hay[i + k] == c;
  }

  /** A text lacking one of the needle's characters cannot contain the needle. */
  lemma MissingCharRulesOut(hay: string, needle: string, c: char)
    requires c in needle && c !in hay
    ensures !Contains(hay, needle)
  {
    if Contains(hay, needle) {
      OccursKeepsChars(needle, hay, c);
    }
  }

  /** Case-insensitive substring test: the `icontains` lookup. */
  predicate IContains(hay: string, needle: string)
  {
    Contains(Lower(hay), Lower(needle))
  }
}
