/**
  The string operations the conversion relies on: the decimal text of an
  index or an integer key (`std::to_string`, `lua_tostring`), the C-string
  view of a key (`obj[const char*]`), and the byte order of `std::map`
  keys, in which a decoded object's entries are visited.
 */
module Text {

  /** The character of one decimal digit. */
  function Digit(d: nat): (c: char)
    requires d < 10
    ensures '0' <= c <= '9' && c as int - '0' as int == d
  {
    "0123456789"[d]
  }

  /** The number a run of decimal digits spells, most significant first. */
  function DigitsValue(s: string): nat
    requires forall i :: 0 <= i < |s| ==> '0' <= s[i] <= '9'
  {
    if s == [] then 0
    else DigitsValue(s[..|s| - 1]) * 10 + (s[|s| - 1] as int - '0' as int)
  }

  lemma DigitInjective(a: nat, b: nat)
    requires a < 10 && b < 10 && Digit(a) == Digit(b)
    ensures a == b
  {
  }

  /** Decimal text of a non-negative number, without leading zeros. */
  function Decimal(n: nat): (r: string)
    ensures |r| >= 1 && forall i :: 0 <= i < |r| ==> '0' <= r[i] <= '9'
    ensures n >= 10 <==> |r| >= 2
    ensures r[0] == '0' ==> n == 0
  {
    if n < 10 then [Digit(n)] else Decimal(n / 10) + [Digit(n % 10)]
  }

  /** Read back most significant digit first, the text of n spells n. */
  lemma {:induction false} DecimalValue(n: nat)
    ensures DigitsValue(Decimal(n)) == n
  {
    var r := Decimal(n);
    if n >= 10 {
      DecimalValue(n / 10);
      assert r[..|r| - 1] == Decimal(n / 10);
    }
  }

  /** Index 12 is written "12", not "21". */
  lemma DecimalExample()
    ensures Decimal(12) == "12" && Decimal(0) == "0"
  {
  }

  /** Different numbers have different decimal texts. */
  lemma {:induction false} DecimalInjective(a: nat, b: nat)
    requires Decimal(a) == Decimal(b)
    ensures a == b
  {
    if a >= 10 && b >= 10 {
      var ra, rb := Decimal(a), Decimal(b);
      assert ra[..|ra| - 1] == Decimal(a / 10);
      assert rb[..|rb| - 1] == Decimal(b / 10);
      DecimalInjective(a / 10, b / 10);
      assert ra[|ra| - 1] == Digit(a % 10);
      assert rb[|rb| - 1] == Digit(b % 10);
      DigitInjective(a % 10, b % 10);
    } else if a < 10 && b < 10 {
      assert Decimal(a)[0] == Digit(a);
      DigitInjective(a, b);
    }
  }

  /** Decimal text of a Lua integer, as `lua_tostring` formats it. */
  function IntText(i: int): (r: string)
    ensures i >= 0 ==> r == Decimal(i)
    ensures |r| >= 1 && (r[0] == '-' <==> i < 0)
    ensures i < 0 ==> r[1..] == Decimal(-i)
    ensures (r[0] == '-' || '0' <= r[0] <= '9') && forall k :: 1 <= k < |r| ==> '0' <= r[k] <= '9'
  {
    if i < 0 then "-" + Decimal(-i) else Decimal(i)
  }

  /** The integer a signed digit string spells: an optional '-' and decimal digits. */
  function SignedValue(s: string): int
    requires |s| >= 1 && (s[0] == '-' || '0' <= s[0] <= '9')
    requires forall k :: 1 <= k < |s| ==> '0' <= s[k] <= '9'
  {
    if s[0] == '-' then -(DigitsValue(s[1..]) as int) else DigitsValue(s)
  }

  /** Read back, the text of an integer key spells that integer. */
  lemma IntTextValue(i: int)
    ensures SignedValue(IntText(i)) == i
  {
    if i < 0 {
      NegativeValue(IntText(i), -i);
    } else {
      DecimalValue(i);
    }
  }

  /** A '-' followed by the decimal text of n spells -n. */
  lemma NegativeValue(r: string, n: nat)
    requires |r| >= 1 && r[0] == '-' && r[1..] == Decimal(n)
    requires forall k :: 1 <= k < |r| ==> '0' <= r[k] <= '9'
    ensures SignedValue(r) == -(n as int)
  {
    DecimalValue(n);
  }

  /** Different integers have different texts. */
  lemma IntTextInjective(a: int, b: int)
    requires IntText(a) == IntText(b)
    ensures a == b
  {
    IntTextValue(a);
    IntTextValue(b);
  }

  /** The string a C consumer sees: everything before the first NUL byte. */
  function CString(s: string): (r: string)
    ensures |r| <= |s| && r == s[..|r|]
    ensures '\0' !in r
    ensures |r| < |s| ==> s[|r|] == '\0'
  {
    if s == [] || s[0] == '\0' then [] else [s[0]] + CString(s[1..])
  }

  lemma CStringWithoutNul(s: string)
    requires '\0' !in s
    ensures CString(s) == s
  {
  }

  /** `a < b` for `std::string`: byte-wise, a proper prefix first. */
  predicate Below(a: string, b: string)
    decreases |a|
  {
    |b| > 0 && (|a| == 0 || a[0] < b[0] || (a[0] == b[0] && Below(a[1..], b[1..])))
  }

  lemma {:induction false} BelowIrreflexive(a: string)
    ensures !Below(a, a)
    decreases |a|
  {
    if |a| > 0 {
      BelowIrreflexive(a[1..]);
    }
  }

  lemma {:induction false} BelowTransitive(a: string, b: string, c: string)
    requires Below(a, b) && Below(b, c)
    ensures Below(a, c)
    decreases |a|
  {
    if |a| > 0 && a[0] == b[0] && b[0] == c[0] {
      BelowTransitive(a[1..], b[1..], c[1..]);
    }
  }

  lemma {:induction false} BelowTotal(a: string, b: string)
    ensures a == b || Below(a, b) || Below(b, a)
    decreases |a|
  {
    if |a| > 0 && |b| > 0 && a[0] == b[0] {
      BelowTotal(a[1..], b[1..]);
      if a[1..] == b[1..] {
        assert a == [a[0]] + a[1..] && b == [b[0]] + b[1..];
      }
    }
  }

  lemma BelowAsymmetric()
    ensures forall a, b :: Below(a, b) ==> !Below(b, a)
  {
    forall a, b | Below(a, b)
      ensures !Below(b, a)
    {
      if Below(b, a) {
        BelowTransitive(a, b, a);
        BelowIrreflexive(a);
      }
    }
  }

  /** `m` comes first among the strings of `s`. */
  predicate IsLeast(m: string, s: set<string>) {
    m in s && forall k :: k in s ==> m == k || Below(m, k)
  }

  lemma {:induction false} LeastExists(s: set<string>)
    requires s != {}
    ensures exists m :: IsLeast(m, s)
    decreases |s|
  {
    var x :| x in s;
    if s == {x} {
      assert IsLeast(x, s);
    } else {
      LeastExists(s - {x});
      var m :| IsLeast(m, s - {x});
      BelowTotal(x, m);
      if Below(x, m) {
        forall k | k in s
          ensures x == k || Below(x, k)
        {
          if k != x && k != m {
            BelowTransitive(x, m, k);
          }
        }
        assert IsLeast(x, s);
      } else {
        assert IsLeast(m, s);
      }
    }
  }

  /** The first of a non-empty set of strings in `std::map` order. */
  function Least(s: set<string>): (m: string)
    requires s != {}
    ensures IsLeast(m, s)
  {
    LeastExists(s);
    BelowAsymmetric();
    var m :| IsLeast(m, s);
    m
  }

  /** The strings of `s` in the order a `std::map` iterates its keys. */
  function SortedKeys(s: set<string>): (r: seq<string>)
    ensures |r| == |s|
    ensures forall k :: k in r <==> k in s
    decreases |s|
  {
    if s == {} then []
    else
      var m := Least(s);
      var rest := SortedKeys(s - {m});
      [m] + rest
  }

  /** The keys come in strictly increasing byte order, so each key once. */
  lemma {:induction false} SortedKeysOrdered(s: set<string>)
    ensures forall i, j :: 0 <= i < j < |SortedKeys(s)| ==> Below(SortedKeys(s)[i], SortedKeys(s)[j])
    ensures forall i, j :: 0 <= i < j < |SortedKeys(s)| ==> SortedKeys(s)[i] != SortedKeys(s)[j]
    decreases |s|
  {
    var r := SortedKeys(s);
    if s != {} {
      var m := Least(s);
      var rest := SortedKeys(s - {m});
      SortedKeysOrdered(s - {m});
      assert r == [m] + rest;
      forall i, j | 0 <= i < j < |r|
        ensures Below(r[i], r[j])
      {
        assert r[j] == rest[j - 1];
        if i == 0 {
          assert rest[j - 1] in s - {m};
        } else {
          assert r[i] == rest[i - 1];
        }
      }
    }
    forall i, j | 0 <= i < j < |r|
      ensures r[i] != r[j]
    {
      BelowIrreflexive(r[i]);
    }
  }
}
