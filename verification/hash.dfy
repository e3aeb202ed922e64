/**
 * `Util.generateHash`: a string of a requested length whose characters are
 * drawn one at a time from a fixed 62-character alphabet.
 *
 * `Math.random()` is an oracle here: `random(i)` is the number it returns on
 * the i-th call, somewhere in [0, 1).
 */
module Hash {

  const UpperCase: string := "ABCDEFGHIJKLMNOPQRSTUVWXYZ"
  const LowerCase: string := "abcdefghijklmnopqrstuvwxyz"
  const Digits: string := "0123456789"

  /** The characters the hash is drawn from, in the source's order. */
  const Alphabet: string := UpperCase + LowerCase + Digits

  predicate IsAlphanumeric(c: char)
  {
    'A' <= c <= 'Z' || 'a' <= c <= 'z' || '0' <= c <= '9'
  }

  /** The character at position `k` of the alphabet, by its character code. */
  function AlphabetChar(k: nat): (c: char)
    requires k < 62
    ensures IsAlphanumeric(c)
  {
    if k < 26 then ('A' as int + k) as char
    else if k < 52 then ('a' as int + (k - 26)) as char
    else ('0' as int + (k - 52)) as char
  }

  /** The `n` consecutive characters starting at `first`. */
  function CharRange(first: char, n: nat): (s: string)
    requires first as int + n <= 0xD800
    ensures |s| == n
  {
    seq(n, i requires 0 <= i < n => (first as int + i) as char)
  }

  /** The alphabet literal is the upper-case letters, the lower-case letters and the digits, in that order. */
  lemma AlphabetLayout()
    ensures Alphabet == CharRange('A', 26) + CharRange('a', 26) + CharRange('0', 10)
  {
    UpperCaseRange();
    LowerCaseRange();
    DigitRange();
  }

  lemma UpperCaseRange()
    ensures CharRange('A', 26) == UpperCase
  {
    assert CharRange('A', 13) == "ABCDEFGHIJKLM";
    assert CharRange('N', 13) == "NOPQRSTUVWXYZ";
    assert CharRange('A', 26) == CharRange('A', 13) + CharRange('N', 13);
  }

  lemma LowerCaseRange()
    ensures CharRange('a', 26) == LowerCase
  {
    assert CharRange('a', 13) == "abcdefghijklm";
    assert CharRange('n', 13) == "nopqrstuvwxyz";
    assert CharRange('a', 26) == CharRange('a', 13) + CharRange('n', 13);
  }

  lemma DigitRange()
    ensures CharRange('0', 10) == Digits
  {
  }

  /** Every draw of the oracle lies in [0, 1), as `Math.random()` promises. */
  ghost predicate IsRandomSource(random: nat -> real)
  {
    forall i :: 0.0 <= random(i) < 1.0
  }

  /** `Math.floor(x * charactersLength)`: the alphabet index a draw selects. */
  function Pick(x: real): (k: nat)
    requires 0.0 <= x < 1.0
    ensures k < |Alphabet|
  {
    (x * 62.0).Floor
  }

  /** Position `k` of the alphabet holds the `k`-th letter or digit. */
  lemma AlphabetAt(k: nat)
    requires k < 62
    ensures Alphabet[k] == AlphabetChar(k)
  {
    AlphabetLayout();
    if k < 26 {
      assert Alphabet[k] == CharRange('A', 26)[k];
    } else if k < 52 {
      assert Alphabet[k] == CharRange('a', 26)[k - 26];
    } else {
      assert Alphabet[k] == CharRange('0', 10)[k - 52];
    }
  }

  /** The alphabet is exactly the 62 ASCII letters and digits, each of them once. */
  lemma AlphabetIsAlphanumeric()
    ensures |Alphabet| == 62
    ensures forall c :: c in Alphabet <==> IsAlphanumeric(c)
    ensures forall j, k :: 0 <= j < k < 62 ==> Alphabet[j] != Alphabet[k]
  {
    forall k | 0 <= k < 62 ensures Alphabet[k] == AlphabetChar(k) {
      AlphabetAt(k);
    }
    forall c | IsAlphanumeric(c) ensures c in Alphabet {
      var k := if c <= '9' then c as int - '0' as int + 52
               else if c <= 'Z' then c as int - 'A' as int
               else c as int - 'a' as int + 26;
      assert Alphabet[k] == AlphabetChar(k) == c;
    }
  }

  /** Every alphabet position holds a letter or a digit. */
  lemma AlphabetAllAlphanumeric()
    ensures forall k :: 0 <= k < 62 ==> IsAlphanumeric(Alphabet[k])
  {
    forall k | 0 <= k < 62 ensures IsAlphanumeric(Alphabet[k]) {
      AlphabetAt(k);
    }
  }

  /** The hash of `length` characters the draws of `random` select. */
  function Drawn(length: nat, random: nat -> real): (s: string)
    requires IsRandomSource(random)
    ensures |s| == length
    ensures forall c :: c in s ==> IsAlphanumeric(c)
  {
    AlphabetAllAlphanumeric();
    seq(length, i requires 0 <= i < length => Alphabet[Pick(random(i))])
  }

  /**
   * `generateHash(length)`: one character per draw, for `length` draws (none
   * when `length` is not positive, as the loop `i < length` never runs).
   */
  method GenerateHash(length: int, random: nat -> real) returns (result: string)
    requires IsRandomSource(random)
    ensures |result| == if length > 0 then length else 0
    ensures forall i :: 0 <= i < |result| ==> result[i] == Alphabet[Pick(random(i))]
    ensures forall c :: c in result ==> IsAlphanumeric(c)
    ensures result == Drawn(|result|, random)
  {
    result := "";
    var i := 0;
    while i < length
      invariant 0 <= i && (length > 0 ==> i <= length) && (length <= 0 ==> i == 0)
      invariant |result| == i
      invariant forall j :: 0 <= j < i ==> result[j] == Alphabet[Pick(random(j))]
      invariant forall c :: c in result ==> IsAlphanumeric(c)
    {
      AlphabetAt(Pick(random(i)));
      result := result + [Alphabet[Pick(random(i))]];
      i := i + 1;
    }
  }
}
