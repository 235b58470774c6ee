/** C strings as the wire formats use them: decimal numbers and `strtok`. */
module Text {
  import opened Wrappers
  import Seqs

  // ---------- numbers ----------

  /** The text `sprintf(..., "%d", n)` writes for a non-negative number. */
  function Decimal(n: nat): (s: string)
    ensures IsDigits(s) && s != []
  {
    if n < 10 then ['0' + n as char] else Decimal(n / 10) + ['0' + (n % 10) as char]
  }

  predicate IsDigits(s: string) {
    forall i :: 0 <= i < |s| ==> '0' <= s[i] <= '9'
  }

  /** `atoi` on a string made of digits only. */
  function Atoi(s: string): nat
    requires IsDigits(s)
  {
    if s == [] then 0 else 10 * Atoi(s[..|s| - 1]) + (s[|s| - 1] - '0') as nat
  }

  lemma {:induction false} AtoiInvertsDecimal(n: nat)
    ensures Atoi(Decimal(n)) == n
  {
    if n >= 10 {
      var head := Decimal(n / 10);
      assert Decimal(n)[..|head|] == head;
      AtoiInvertsDecimal(n / 10);
    }
  }

  /** What decimal text is: the digits of the number, the last one for the units. */
  lemma DecimalDigits(n: nat, d: nat)
    requires d < 10
    ensures Decimal(d) == ['0' + d as char]
    ensures n > 0 ==> Decimal(10 * n + d) == Decimal(n) + ['0' + d as char]
  {
    assert n > 0 ==> (10 * n + d) / 10 == n && (10 * n + d) % 10 == d;
  }

  /** A port of at most five digits prints in at most five characters (and so on). */
  lemma {:induction false} DecimalLength(n: nat, digits: nat)
    requires digits >= 1 && n < Pow10(digits)
    ensures |Decimal(n)| <= digits
  {
    if n >= 10 {
      DecimalLength(n / 10, digits - 1);
    }
  }

  function Pow10(k: nat): nat {
    if k == 0 then 1 else 10 * Pow10(k - 1)
  }

  // ---------- strtok ----------

  function SkipDelimiters(s: string, d: char): (r: string)
    ensures |r| <= |s|
    ensures r != [] ==> r[0] != d
  {
    if s != [] && s[0] == d then SkipDelimiters(s[1..], d) else s
  }

  function TokenLength(s: string, d: char): (n: nat)
    ensures n <= |s|
    ensures forall i :: 0 <= i < n ==> s[i] != d
    ensures n < |s| ==> s[n] == d
  {
    if s == [] || s[0] == d then 0 else 1 + TokenLength(s[1..], d)
  }

  /** Every token that successive `strtok` calls return before the first NULL. */
  function Tokens(s: string, d: char): seq<string>
    decreases |s|
  {
    var t := SkipDelimiters(s, d);
    if t == [] then [] else
      var n := TokenLength(t, d);
      [t[..n]] + Tokens(t[n..], d)
  }

  /** What a field must be for `strtok` to give it back. */
  predicate IsField(f: string, d: char) {
    f != [] && d !in f
  }

  /** Fields written with the delimiter between them, as the `strcat` chains do. */
  function Join(fs: seq<string>, d: char): string
    requires fs != []
  {
    if |fs| == 1 then fs[0] else fs[0] + ([d] + Join(fs[1..], d))
  }

  lemma {:induction false} TokensAreFields(s: string, d: char)
    ensures forall f :: f in Tokens(s, d) ==> IsField(f, d)
    decreases |s|
  {
    var t := SkipDelimiters(s, d);
    if t != [] {
      var n := TokenLength(t, d);
      TokensAreFields(t[n..], d);
    }
  }

  lemma {:induction false} TokenLengthOfField(f: string, rest: string, d: char)
    requires d !in f
    requires rest != [] ==> rest[0] == d
    ensures TokenLength(f + rest, d) == |f|
  {
    if f == [] {
      Seqs.NilLeft(rest);
    } else {
      Seqs.HeadTail(f, rest);
      TokenLengthOfField(f[1..], rest, d);
    }
  }

  /** A field at the front is the first token. */
  lemma FirstToken(f: string, rest: string, d: char)
    requires IsField(f, d)
    requires rest != [] ==> rest[0] == d
    ensures Tokens(f + rest, d) == [f] + Tokens(rest, d)
  {
    Seqs.HeadTail(f, rest);
    assert f[0] in f;
    TokenLengthOfField(f, rest, d);
    Seqs.Split(f, rest);
  }

  /** A delimiter at the front is skipped. */
  lemma LeadingDelimiter(s: string, d: char)
    requires s != [] && s[0] == d
    ensures Tokens(s, d) == Tokens(s[1..], d)
  {
    assert SkipDelimiters(s, d) == SkipDelimiters(s[1..], d);
  }

  lemma SkipOne(text: string, pos: nat, d: char)
    requires pos < |text| && text[pos] == d
    ensures Tokens(text[pos..], d) == Tokens(text[pos + 1..], d)
  {
    Seqs.Grow(text, pos);
    LeadingDelimiter(text[pos..], d);
  }

  lemma Cut(text: string, start: nat, pos: nat, d: char)
    requires start < pos <= |text| && d !in text[start..pos]
    requires pos < |text| ==> text[pos] == d
    ensures Tokens(text[start..], d) != [] && Tokens(text[start..], d)[0] == text[start..pos]
    ensures Tokens(text[start..], d)[1..] == Tokens(text[pos..], d)
  {
    Seqs.Middle(text, start, pos);
    FirstToken(text[start..pos], text[pos..], d);
    Seqs.Cons(text[start..pos], Tokens(text[pos..], d));
  }

  lemma {:induction false} JoinThenTokens(fs: seq<string>, d: char)
    requires fs != [] && forall f :: f in fs ==> IsField(f, d)
    ensures Tokens(Join(fs, d), d) == fs
  {
    assert fs[0] in fs;
    Seqs.Uncons(fs);
    if |fs| == 1 {
      FirstToken(fs[0], "", d);
      Seqs.NilRight(fs[0]);
    } else {
      var next := Join(fs[1..], d);
      FirstToken(fs[0], [d] + next, d);
      Seqs.Cons(d, next);
      LeadingDelimiter([d] + next, d);
      JoinThenTokens(fs[1..], d);
    }
  }

  /** Joined fields come back exactly when every one of them is non-empty and free of
      the delimiter: the condition is also necessary. */
  lemma StrtokRecoversFields(fs: seq<string>, d: char)
    requires fs != []
    ensures Tokens(Join(fs, d), d) == fs <==> forall f :: f in fs ==> IsField(f, d)
  {
    TokensAreFields(Join(fs, d), d);
    if forall f :: f in fs ==> IsField(f, d) {
      JoinThenTokens(fs, d);
    }
  }

  /** The first position from `from` on that does not hold the delimiter (`strspn`). */
  method StrSpn(text: string, from: nat, d: char) returns (pos: nat)
    requires from <= |text|
    ensures from <= pos <= |text| && (pos < |text| ==> text[pos] != d)
    ensures Tokens(text[pos..], d) == Tokens(text[from..], d)
  {
    pos := from;
    while pos < |text| && text[pos] == d
      invariant from <= pos <= |text|
      invariant Tokens(text[pos..], d) == Tokens(text[from..], d)
    {
      SkipOne(text, pos, d);
      pos := pos + 1;
    }
  }

  /** The first position from `from` on that holds the delimiter (`strcspn`). */
  method StrCspn(text: string, from: nat, d: char) returns (pos: nat)
    requires from <= |text|
    ensures from <= pos <= |text| && (pos < |text| ==> text[pos] == d)
    ensures d !in text[from..pos]
    ensures from < |text| && text[from] != d ==> from < pos
  {
    pos := from;
    while pos < |text| && text[pos] != d
      invariant from <= pos <= |text|
      invariant d !in text[from..pos]
    {
      pos := pos + 1;
    }
  }

  /** The hidden state of `strtok`: the text being cut and the place reached. */
  class Tokenizer {
    const text: string
    const delimiter: char
    var pos: nat

    ghost predicate Valid()
      reads this
    {
      pos <= |text|
    }

    ghost function Rest(): seq<string>
      requires Valid()
      reads this
    {
      Tokens(text[pos..], delimiter)
    }

    constructor (text: string, delimiter: char)
      ensures Valid() && Rest() == Tokens(text, delimiter)
    {
      this.text, this.delimiter, pos := text, delimiter, 0;
    }

    /** One `strtok` call; `None` is the NULL it returns at the end. */
    method Next() returns (token: Option<string>)
      requires Valid()
      modifies this
      ensures Valid()
      ensures old(Rest()) == [] ==> token == None && Rest() == []
      ensures old(Rest()) != [] ==> token == Some(old(Rest())[0]) && Rest() == old(Rest())[1..]
    {
      var start := StrSpn(text, pos, delimiter);
      if start == |text| {
        pos := start;
        return None;
      }
      var end := StrCspn(text, start, delimiter);
      Cut(text, start, end, delimiter);
      token := Some(text[start..end]);
      pos := end;
      if end < |text| {
        SkipOne(text, end, delimiter);
        pos := end + 1;
      }
    }
  }
}
