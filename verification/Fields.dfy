/** Texts made of fields with a separator between them, and numbers printed in a base. */
module Fields {

  function Join(parts: seq<string>, sep: char): string
    requires parts != []
  {
    if |parts| == 1 then parts[0] else parts[0] + [sep] + Join(parts[1..], sep)
  }

  /** Rust's `split`: at least one field, and one more for every separator. */
  function Split(s: string, sep: char): (parts: seq<string>)
    ensures parts != []
  {
    if s == "" then [""]
    else
      var rest := Split(s[1..], sep);
      if s[0] == sep then [""] + rest else [[s[0]] + rest[0]] + rest[1..]
  }

  lemma {:induction false} SplitField(p: string, sep: char)
    requires sep !in p
    ensures Split(p, sep) == [p]
  {
    if p != "" {
      SplitField(p[1..], sep);
      assert [p[0]] + p[1..] == p;
    }
  }

  lemma {:induction false} SplitFirst(p: string, sep: char, s: string)
    requires sep !in p
    ensures Split(p + [sep] + s, sep) == [p] + Split(s, sep)
  {
    var t := p + [sep] + s;
    if p == "" {
      assert t[1..] == s;
    } else {
      SplitFirst(p[1..], sep, s);
      assert t[1..] == p[1..] + [sep] + s;
      assert [p[0]] + p[1..] == p;
    }
  }

  /** Fields without the separator are split back. */
  lemma {:induction false} SplitJoin(parts: seq<string>, sep: char)
    requires parts != [] && forall p <- parts :: sep !in p
    ensures Split(Join(parts, sep), sep) == parts
  {
    if |parts| == 1 {
      SplitField(parts[0], sep);
    } else {
      SplitFirst(parts[0], sep, Join(parts[1..], sep));
      SplitJoin(parts[1..], sep);
    }
  }

  function Digit(d: nat): char
    requires d < 16
  {
    if d < 10 then '0' + d as char else 'a' + (d - 10) as char
  }

  predicate Base(base: nat) {
    base == 10 || base == 16
  }

  function Quotient(n: nat, base: nat): (q: nat)
    requires Base(base)
    ensures n >= base ==> q < n
    ensures q == n / base
  {
    if base == 10 then n / 10 else n / 16
  }

  function Remainder(n: nat, base: nat): (r: nat)
    requires Base(base)
    ensures r < base
    ensures n == Quotient(n, base) * base + r
  {
    if base == 10 then n % 10 else n % 16
  }

  /** Lower-case digits without leading zeros, as `{}` (base 10) and `{:x}` (base 16) show them. */
  function Digits(n: nat, base: nat): (s: string)
    requires Base(base)
    ensures s != "" && '.' !in s && ':' !in s
  {
    if n < base then [Digit(n)] else Digits(Quotient(n, base), base) + [Digit(Remainder(n, base))]
  }

  lemma {:induction false} DigitsInjective(n: nat, m: nat, base: nat)
    requires Base(base) && Digits(n, base) == Digits(m, base)
    ensures n == m
  {
    var s, t := Digits(n, base), Digits(m, base);
    if n >= base && m >= base {
      assert s[|s| - 1] == Digit(Remainder(n, base)) && t[|t| - 1] == Digit(Remainder(m, base));
      assert s[..|s| - 1] == Digits(Quotient(n, base), base) && t[..|t| - 1] == Digits(Quotient(m, base), base);
      DigitsInjective(Quotient(n, base), Quotient(m, base), base);
    } else if n < base && m < base {
      assert s[0] == t[0];
    }
  }

  /** Whatever the text, the fields of a split hold no separator and join to the text again. */
  lemma {:induction false} JoinSplit(s: string, sep: char)
    ensures Join(Split(s, sep), sep) == s && forall p <- Split(s, sep) :: sep !in p
  {
    if s != "" {
      JoinSplit(s[1..], sep);
      var rest := Split(s[1..], sep);
      assert [s[0]] + s[1..] == s;
      hide Join;
      if s[0] == sep {
        JoinEmpty(rest, sep);
      } else {
        JoinLonger(s[0], rest, sep);
        assert rest[0] in rest && forall p <- rest[1..] :: p in rest;
      }
    }
  }

  lemma JoinEmpty(rest: seq<string>, sep: char)
    requires rest != []
    ensures Join([""] + rest, sep) == [sep] + Join(rest, sep)
  {
    assert ([""] + rest)[1..] == rest;
  }

  lemma JoinLonger(c: char, rest: seq<string>, sep: char)
    requires rest != []
    ensures Join([[c] + rest[0]] + rest[1..], sep) == [c] + Join(rest, sep)
  {
    assert ([[c] + rest[0]] + rest[1..])[1..] == rest[1..];
  }

  function DigitValue(c: char): nat {
    if '0' <= c <= '9' then c as nat - '0' as nat else if 'a' <= c <= 'f' then c as nat - 'a' as nat + 10 else 0
  }

  /** The number a text of digits stands for. */
  function Denoted(s: string, base: nat): nat {
    if s == "" then 0 else Denoted(s[..|s| - 1], base) * base + DigitValue(s[|s| - 1])
  }

  /** The digits stand for the number, and start with a zero only if they are "0". */
  lemma {:induction false} DigitsDenote(n: nat, base: nat)
    requires Base(base)
    ensures Denoted(Digits(n, base), base) == n
    ensures forall c <- Digits(n, base) :: c in "0123456789abcdef" && DigitValue(c) < base
    ensures Digits(n, base)[0] == '0' ==> n == 0
  {
    var s := Digits(n, base);
    if n < base {
      DigitIsListed(n);
      assert s[..0] == "";
      assert Denoted(s, base) == Denoted("", base) * base + DigitValue(s[0]);
    } else {
      var q, r := Quotient(n, base), Remainder(n, base);
      DigitsDenote(q, base);
      DigitIsListed(r);
      assert s[..|s| - 1] == Digits(q, base) && s[|s| - 1] == Digit(r);
    }
  }

  lemma DigitIsListed(d: nat)
    requires d < 16
    ensures Digit(d) in "0123456789abcdef" && DigitValue(Digit(d)) == d
  {
    assert Digit(d) == "0123456789abcdef"[d];
  }
}
