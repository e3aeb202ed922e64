/**
 * The JavaScript string operations the sticker helpers depend on:
 * `String.prototype.includes` and the second field of `split("/")`.
 */
module Text {
  import opened Wrappers

  /** `sub` occurs in `s` at position `i`. */
  ghost predicate OccursAt(s: string, sub: string, i: int)
  {
    0 <= i && i + |sub| <= |s| && s[i..i + |sub|] == sub
  }

  /** `s.includes(sub)`: some position of `s` starts an occurrence of `sub`. */
  function Includes(s: string, sub: string): (r: bool)
    ensures r <==> exists i :: OccursAt(s, sub, i)
    decreases |s|
  {
    if |s| < |sub| then
      false
    else if s[..|sub|] == sub then
      assert OccursAt(s, sub, 0);
      true
    else
      OccursShift(s, sub);
      Includes(s[1..], sub)
  }

  /** Past position 0, the occurrences in `s` are those in `s[1..]`, shifted by one. */
  lemma OccursShift(s: string, sub: string)
    requires |s| >= |sub| && s[..|sub|] != sub
    ensures (exists i :: OccursAt(s, sub, i)) <==> (exists i :: OccursAt(s[1..], sub, i))
  {
    if exists i :: OccursAt(s[1..], sub, i) {
      var i :| OccursAt(s[1..], sub, i);
      assert OccursAt(s, sub, i + 1);
    }
    if exists i :: OccursAt(s, sub, i) {
      var i :| OccursAt(s, sub, i);
      assert i != 0;
      assert OccursAt(s[1..], sub, i - 1);
    }
  }

  /** Position of the first `c` in `s`, if any. */
  function IndexOf(s: string, c: char): (r: Option<nat>)
    ensures r.None? <==> c !in s
    ensures r.Some? ==> r.value < |s| && s[r.value] == c && c !in s[..r.value]
  {
    if s == [] then None
    else if s[0] == c then Some(0)
    else
      match IndexOf(s[1..], c)
      case None => None
      case Some(k) =>
        assert s[..k + 1] == [s[0]] + s[1..][..k];
        Some(k + 1)
  }

  /**
   * `s` reads `before`, `sep`, `field`, `after`, where neither `before` nor
   * `field` holds `sep` and `after` is empty or starts with the next `sep`.
   */
  ghost predicate IsSecondField(s: string, sep: char, before: string, field: string, after: string)
  {
    s == before + [sep] + field + after && sep !in before && sep !in field &&
    (after == [] || after[0] == sep)
  }

  /**
   * `s.split(sep)[1]`: the text between the first and the second `sep`
   * (or the end of `s`); `undefined` (None) when `s` holds no `sep`.
   */
  function SecondField(s: string, sep: char): (r: Option<string>)
    ensures r.None? <==> sep !in s
    ensures r.Some? ==>
      exists before, after :: IsSecondField(s, sep, before, r.value, after)
  {
    match IndexOf(s, sep)
    case None => None
    case Some(i) =>
      var field := FieldOf(s[i + 1..], sep);
      SecondFieldReading(s, sep, i, field);
      Some(field)
  }

  /** The text of `tail` up to its first `sep`, or all of it when it holds none. */
  function FieldOf(tail: string, sep: char): (field: string)
    ensures field <= tail && sep !in field
    ensures |field| == |tail| || tail[|field|] == sep
  {
    match IndexOf(tail, sep)
    case None => tail
    case Some(j) => tail[..j]
  }

  /** The pieces `SecondField` finds make up a reading of `s`. */
  lemma SecondFieldReading(s: string, sep: char, i: nat, field: string)
    requires i < |s| && s[i] == sep && sep !in s[..i]
    requires field <= s[i + 1..] && sep !in field
    requires |field| == |s| - i - 1 || s[i + 1 + |field|] == sep
    ensures IsSecondField(s, sep, s[..i], field, s[i + 1 + |field|..])
  {
    assert s == s[..i] + [sep] + s[i + 1..];
    assert s[i + 1..] == field + s[i + 1 + |field|..];
  }

  /** The first `c` in `before + [c] + rest`, when `before` holds none, is at `|before|`. */
  lemma {:induction false} IndexOfAfter(before: string, c: char, rest: string)
    requires c !in before
    ensures IndexOf(before + [c] + rest, c) == Some(|before|)
  {
    if before != [] {
      assert (before + [c] + rest)[1..] == before[1..] + [c] + rest;
      IndexOfAfter(before[1..], c, rest);
    }
  }

  /** Conversely, any such reading of `s` is the one `SecondField` finds. */
  lemma SecondFieldUnique(s: string, sep: char, before: string, field: string, after: string)
    requires IsSecondField(s, sep, before, field, after)
    ensures SecondField(s, sep) == Some(field)
  {
    assert s == before + [sep] + (field + after);
    IndexOfAfter(before, sep, field + after);
    assert s[|before| + 1..] == field + after;
    FieldOfUnique(field, sep, after);
  }

  /** `FieldOf` stops exactly at the end of a `sep`-free `field`. */
  lemma FieldOfUnique(field: string, sep: char, after: string)
    requires sep !in field && (after == [] || after[0] == sep)
    ensures FieldOf(field + after, sep) == field
  {
    if after == [] {
      assert field + after == field;
    } else {
      assert field + after == field + [sep] + after[1..];
      IndexOfAfter(field, sep, after[1..]);
    }
  }

  /** Decimal digits of `n`, as JavaScript renders a non-negative integer. */
  function Decimal(n: nat): (r: string)
    ensures r != []
    ensures forall i :: 0 <= i < |r| ==> '0' <= r[i] <= '9'
    ensures |r| > 1 ==> r[0] != '0'
    ensures DecimalValue(r) == n
  {
    if n < 10 then
      [Digit(n)]
    else
      var r := Decimal(n / 10) + [Digit(n % 10)];
      assert r[..|r| - 1] == Decimal(n / 10);
      r
  }

  /** The number a string of decimal digits denotes, read most significant digit first. */
  function DecimalValue(s: string): nat
    requires forall i :: 0 <= i < |s| ==> '0' <= s[i] <= '9'
  {
    if s == [] then 0
    else
      10 * DecimalValue(s[..|s| - 1]) + (s[|s| - 1] as int - '0' as int)
  }

  function Digit(d: nat): (c: char)
    requires d < 10
    ensures '0' <= c <= '9'
  {
    ('0' as int + d) as char
  }
}
