/** The pieces of Python's string handling that the scripts share: decimal numerals, split, join
    and strip. */
module Text {

  datatype Option<+T> = None | Some(value: T)

  // ---------------------------------------------------------------- decimal numerals

  predicate IsDigit(c: char) { '0' <= c <= '9' }

  predicate AllDigits(s: string) { forall i :: 0 <= i < |s| ==> IsDigit(s[i]) }

  function DigitValue(c: char): nat
    requires IsDigit(c)
  {
    c as int - '0' as int
  }

  function Digit(d: nat): (c: char)
    requires d < 10
    ensures IsDigit(c) && DigitValue(c) == d
  {
    (d + '0' as int) as char
  }

  /** str(n) and '%d' % n for a natural number. */
  function ShowNat(n: nat): (s: string)
    ensures s != [] && AllDigits(s)
  {
    if n < 10 then [Digit(n)] else ShowNat(n / 10) + [Digit(n % 10)]
  }

  function ReadNat(s: string): nat
    requires AllDigits(s)
  {
    if s == [] then 0 else 10 * ReadNat(s[..|s| - 1]) + DigitValue(s[|s| - 1])
  }

  lemma {:induction false} ReadShow(n: nat)
    ensures ReadNat(ShowNat(n)) == n
  {
    var s := ShowNat(n);
    if n >= 10 {
      ReadShow(n / 10);
      assert s[..|s| - 1] == ShowNat(n / 10);
    } else {
      assert s[..0] == [];
    }
  }

  /** str(n) for an integer. */
  function ShowInt(n: int): string {
    if n < 0 then "-" + ShowNat(-n) else ShowNat(n)
  }

  predicate IsSpace(c: char) { c in " \t\n\r" || c as int == 11 || c as int == 12 }

  function StripLeft(s: string): string {
    if s != [] && IsSpace(s[0]) then StripLeft(s[1..]) else s
  }

  function StripRight(s: string): string {
    if s != [] && IsSpace(s[|s| - 1]) then StripRight(s[..|s| - 1]) else s
  }

  function Strip(s: string): string { StripRight(StripLeft(s)) }

  /** s.strip() leaves a string alone whose ends are not blank. */
  lemma StripNothing(s: string)
    requires s == [] || (!IsSpace(s[0]) && !IsSpace(s[|s| - 1]))
    ensures Strip(s) == s
  {
  }

  /** int(s): blanks around it, one optional sign, then digits and nothing else. */
  function ParseInt(s: string): Option<int> {
    var t := Strip(s);
    if t != [] && AllDigits(t) then Some(ReadNat(t))
    else if |t| > 1 && t[0] == '-' && AllDigits(t[1..]) then Some(0 - ReadNat(t[1..]))
    else if |t| > 1 && t[0] == '+' && AllDigits(t[1..]) then Some(ReadNat(t[1..]))
    else None
  }

  lemma ParseShowInt(n: int)
    ensures ParseInt(ShowInt(n)) == Some(n)
  {
    var s := ShowInt(n);
    StripNothing(s);
    if n < 0 {
      ReadShow(-n);
      assert s[1..] == ShowNat(-n);
      assert !IsDigit(s[0]);
    } else {
      ReadShow(n);
    }
  }

  /** The blanks: tab to carriage return, and the space. */
  lemma SpacesAre(c: char)
    ensures IsSpace(c) <==> 9 <= c as int <= 13 || c as int == 32
  {
  }

  predicate Spaces(s: string) { forall i :: 0 <= i < |s| ==> IsSpace(s[i]) }

  lemma {:induction false} StripLeftBlanks(a: string, m: string)
    requires Spaces(a) && m != [] && !IsSpace(m[0])
    ensures StripLeft(a + m) == m
  {
    if a == [] {
      assert a + m == m;
    } else {
      assert (a + m)[1..] == a[1..] + m;
      StripLeftBlanks(a[1..], m);
    }
  }

  lemma {:induction false} StripRightBlanks(m: string, b: string)
    requires Spaces(b) && m != [] && !IsSpace(m[|m| - 1])
    ensures StripRight(m + b) == m
  {
    if b == [] {
      assert m + b == m;
    } else {
      assert (m + b)[..|m + b| - 1] == m + b[..|b| - 1];
      StripRightBlanks(m, b[..|b| - 1]);
    }
  }

  lemma StripBlanks(a: string, m: string, b: string)
    requires Spaces(a) && Spaces(b) && m != [] && !IsSpace(m[0]) && !IsSpace(m[|m| - 1])
    ensures Strip(a + m + b) == m
  {
    assert a + m + b == a + (m + b);
    StripLeftBlanks(a, m + b);
    StripRightBlanks(m, b);
  }

  /** int() reads digits with or without a sign, between blanks. */
  lemma ParseIntReads(a: string, digits: string, b: string)
    requires Spaces(a) && Spaces(b) && digits != [] && AllDigits(digits)
    ensures ParseInt(a + digits + b) == Some(ReadNat(digits))
    ensures ParseInt(a + ("+" + digits) + b) == Some(ReadNat(digits))
    ensures ParseInt(a + ("-" + digits) + b) == Some(0 - ReadNat(digits))
  {
    hide ReadNat, Strip;
    StripBlanks(a, digits, b);
    StripBlanks(a, "+" + digits, b);
    StripBlanks(a, "-" + digits, b);
    assert !IsDigit(("+" + digits)[0]) && !IsDigit(("-" + digits)[0]);
    assert ("+" + digits)[1..] == digits && ("-" + digits)[1..] == digits;
  }

  // ---------------------------------------------------------------- split and join

  predicate Without(c: char, s: string) { forall i :: 0 <= i < |s| ==> s[i] != c }

  /** s.split(c): always at least one part. */
  function Split(s: string, c: char): (parts: seq<string>)
    ensures parts != []
  {
    if s == [] then [[]]
    else
      var rest := Split(s[1..], c);
      if s[0] == c then [[]] + rest else [[s[0]] + rest[0]] + rest[1..]
  }

  /** c.join(parts). */
  function Join(parts: seq<string>, c: char): string
    requires parts != []
  {
    if |parts| == 1 then parts[0] else parts[0] + [c] + Join(parts[1..], c)
  }

  lemma {:induction false} SplitPlain(s: string, c: char)
    requires Without(c, s)
    ensures Split(s, c) == [s]
  {
    if s != [] {
      SplitPlain(s[1..], c);
      assert [s[0]] + s[1..] == s;
    }
  }

  /** Splitting takes off a first part up to the first separator. */
  lemma {:induction false} SplitFirst(a: string, c: char, rest: string)
    requires Without(c, a)
    ensures Split(a + [c] + rest, c) == [a] + Split(rest, c)
  {
    var s := a + [c] + rest;
    if a == [] {
      assert s[1..] == rest;
    } else {
      assert s[1..] == a[1..] + [c] + rest;
      SplitFirst(a[1..], c, rest);
      assert [a[0]] + a[1..] == a;
    }
  }

  lemma {:induction false} SplitJoin(parts: seq<string>, c: char)
    requires parts != [] && forall i :: 0 <= i < |parts| ==> Without(c, parts[i])
    ensures Split(Join(parts, c), c) == parts
  {
    if |parts| == 1 {
      SplitPlain(parts[0], c);
    } else {
      SplitJoin(parts[1..], c);
      SplitFirst(parts[0], c, Join(parts[1..], c));
      assert [parts[0]] + parts[1..] == parts;
    }
  }

  // ---------------------------------------------------------------- order

  /** Python compares strings by the codes of their characters. */
  predicate StrLe(a: string, b: string) {
    a == [] || (b != [] && (a[0] < b[0] || (a[0] == b[0] && StrLe(a[1..], b[1..]))))
  }

  lemma {:induction false} StrLeTotal(a: string, b: string)
    ensures StrLe(a, b) || StrLe(b, a)
    ensures StrLe(a, b) && StrLe(b, a) ==> a == b
  {
    if a != [] && b != [] {
      StrLeTotal(a[1..], b[1..]);
      if a[0] == b[0] && a[1..] == b[1..] {
        assert a == [a[0]] + a[1..] && b == [b[0]] + b[1..];
      }
    }
  }

  lemma {:induction false} StrLeTransitive(a: string, b: string, c: string)
    requires StrLe(a, b) && StrLe(b, c)
    ensures StrLe(a, c)
  {
    if a != [] && a[0] == b[0] && b[0] == c[0] {
      StrLeTransitive(a[1..], b[1..], c[1..]);
    }
  }

  /** a stands before b in a dictionary: it has the smaller character where they first differ, or is
      a part of b from its start. */
  ghost predicate Lower(a: string, b: string) { exists k: nat :: LowerAt(a, b, k) }

  predicate LowerAt(a: string, b: string, k: nat) {
    && k <= |a| && k <= |b| && (forall i :: 0 <= i < k ==> a[i] == b[i])
    && ((k == |a| && k < |b|) || (k < |a| && k < |b| && a[k] < b[k]))
  }

  lemma LowerAtNext(a: string, b: string, k: nat)
    requires a != [] && b != [] && a[0] == b[0]
    ensures LowerAt(a, b, k + 1) <==> LowerAt(a[1..], b[1..], k)
  {
    if LowerAt(a[1..], b[1..], k) {
      forall i | 0 <= i < k + 1 ensures a[i] == b[i] {
        if i > 0 { assert a[1..][i - 1] == b[1..][i - 1]; }
      }
    }
  }

  lemma LowerNext(a: string, b: string)
    requires a != [] && b != []
    ensures Lower(a, b) <==> a[0] < b[0] || (a[0] == b[0] && Lower(a[1..], b[1..]))
  {
    if k: nat :| LowerAt(a, b, k) {
      if k > 0 { LowerAtNext(a, b, k - 1); }
    }
    if a[0] < b[0] {
      assert LowerAt(a, b, 0);
    }
    if a[0] == b[0] && Lower(a[1..], b[1..]) {
      var k: nat :| LowerAt(a[1..], b[1..], k);
      LowerAtNext(a, b, k);
    }
  }

  lemma {:induction false} StrLeMeans(a: string, b: string)
    ensures StrLe(a, b) <==> a == b || Lower(a, b)
    ensures Lower(a, b) ==> a != b && !StrLe(b, a)
  {
    if a == [] {
      if b != [] { assert LowerAt(a, b, 0); }
    } else if b != [] {
      LowerNext(a, b);
      StrLeMeans(a[1..], b[1..]);
      assert a == [a[0]] + a[1..] && b == [b[0]] + b[1..];
    }
  }
}
