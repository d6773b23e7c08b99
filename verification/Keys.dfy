/**
 The string keys of the source's maps: fmt.Sprintf with "%d-%d", "%v" and "%v-%v".  Different arguments always give
 different keys, so the maps may be read as maps on the arguments themselves.
 */
module Keys {

  function Digit(d: nat): char
    requires d < 10
  {
    '0' + d as char
  }

  /** The decimal digits of a number. */
  function Digits(n: nat): (s: string)
    ensures |s| > 0 && forall i :: 0 <= i < |s| ==> '0' <= s[i] <= '9'
  {
    if n < 10 then [Digit(n)] else Digits(n / 10) + [Digit(n % 10)]
  }

  function Itoa(x: int): (s: string)
    ensures |s| > 0 && forall i :: 0 <= i < |s| ==> s[i] == '-' || '0' <= s[i] <= '9'
  {
    if x < 0 then "-" + Digits(-x) else Digits(x)
  }

  lemma {:induction false} DigitsInjective(a: nat, b: nat)
    requires Digits(a) == Digits(b)
    ensures a == b
  {
    var s, t := Digits(a), Digits(b);
    assert s[|s| - 1] == Digit(a % 10) && t[|t| - 1] == Digit(b % 10);
    assert s[..|s| - 1] == t[..|t| - 1];
    if a >= 10 {
      assert s[..|s| - 1] == Digits(a / 10);
      if b >= 10 {
        DigitsInjective(a / 10, b / 10);
      }
    }
  }

  lemma ItoaInjective(a: int, b: int)
    requires Itoa(a) == Itoa(b)
    ensures a == b
  {
    var s, t := Itoa(a), Itoa(b);
    assert a < 0 <==> s[0] == '-';
    assert b < 0 <==> t[0] == '-';
    if a < 0 {
      assert s[1..] == Digits(-a) && t[1..] == Digits(-b);
      DigitsInjective(-a, -b);
    } else {
      DigitsInjective(a, b);
    }
  }

  /** Two strings cut at their first separator. */
  lemma FirstSeparator(s: string, t: string, s': string, t': string, sep: char)
    requires s + [sep] + t == s' + [sep] + t' && sep !in s && sep !in s'
    ensures s == s' && t == t'
  {
    var all := s + [sep] + t;
    assert all[|s|] == sep && all[|s'|] == sep;
    assert forall i :: 0 <= i < |s| ==> all[i] == s[i] && s[i] != sep;
    assert forall i :: 0 <= i < |s'| ==> all[i] == s'[i] && s'[i] != sep;
    assert all[..|s|] == s && all[..|s'|] == s';
    assert all[|s| + 1..] == t && all[|s'| + 1..] == t';
  }

  /** The key of a pair of AS numbers in the latency cache. */
  function PairKey(src: int, dst: int): string {
    Itoa(src) + "-" + Itoa(dst)
  }

  lemma PairKeyInjective(a: int, b: int, c: int, d: int)
    requires PairKey(a, b) == PairKey(c, d)
    ensures a == c && b == d
  {
    hide Digits, Itoa;
    var s, t := PairKey(a, b), PairKey(c, d);
    SplitSign(a);
    SplitSign(c);
    assert s[0] == Itoa(a)[0] && t[0] == Itoa(c)[0];
    if a < 0 {
      assert s[1..] == Itoa(a)[1..] + ['-'] + Itoa(b) && t[1..] == Itoa(c)[1..] + ['-'] + Itoa(d);
      FirstSeparator(Itoa(a)[1..], Itoa(b), Itoa(c)[1..], Itoa(d), '-');
      assert Itoa(a) == [s[0]] + Itoa(a)[1..] && Itoa(c) == [t[0]] + Itoa(c)[1..];
    } else {
      FirstSeparator(Itoa(a), Itoa(b), Itoa(c), Itoa(d), '-');
    }
    ItoaInjective(a, c);
    ItoaInjective(b, d);
  }

  lemma SplitSign(x: int)
    ensures Itoa(x)[0] == '-' <==> x < 0
    ensures '-' !in if x < 0 then Itoa(x)[1..] else Itoa(x)
  {
  }

  function Spaced(p: seq<int>): (s: string)
    ensures ']' !in s
  {
    if p == [] then "" else if |p| == 1 then Itoa(p[0]) else Itoa(p[0]) + " " + Spaced(p[1..])
  }

  lemma SpaceInside(p: seq<int>)
    ensures ' ' in Spaced(p) <==> |p| > 1
    ensures Spaced(p) == "" <==> p == []
  {
    if |p| > 1 {
      assert Spaced(p)[|Itoa(p[0])|] == ' ';
    }
  }

  lemma {:induction false} SpacedInjective(p: seq<int>, q: seq<int>)
    requires Spaced(p) == Spaced(q)
    ensures p == q
  {
    SpaceInside(p);
    SpaceInside(q);
    if |p| > 1 && |q| > 1 {
      FirstSeparator(Itoa(p[0]), Spaced(p[1..]), Itoa(q[0]), Spaced(q[1..]), ' ');
      ItoaInjective(p[0], q[0]);
      SpacedInjective(p[1..], q[1..]);
      assert p == [p[0]] + p[1..] && q == [q[0]] + q[1..];
    } else if |p| == 1 && |q| == 1 {
      ItoaInjective(p[0], q[0]);
    }
  }

  /** The key of a path in the searches: "%v" of a list of numbers. */
  function PathKey(p: seq<int>): string {
    "[" + Spaced(p) + "]"
  }

  lemma PathKeyInjective(p: seq<int>, q: seq<int>)
    requires PathKey(p) == PathKey(q)
    ensures p == q
  {
    assert Spaced(p) == PathKey(p)[1..|PathKey(p)| - 1] == Spaced(q);
    SpacedInjective(p, q);
  }

  /** The key of the results of a pathping test. */
  function TestID(path: seq<int>, id: int): string {
    PathKey(path) + "-" + Itoa(id)
  }

  lemma TestIDInjective(p: seq<int>, a: int, q: seq<int>, b: int)
    requires TestID(p, a) == TestID(q, b)
    ensures p == q && a == b
  {
    hide Spaced, Itoa;
    var s, t := TestID(p, a), TestID(q, b);
    assert s[1..] == Spaced(p) + [']'] + ("-" + Itoa(a));
    assert t[1..] == Spaced(q) + [']'] + ("-" + Itoa(b));
    FirstSeparator(Spaced(p), "-" + Itoa(a), Spaced(q), "-" + Itoa(b), ']');
    SpacedInjective(p, q);
    assert ("-" + Itoa(a))[1..] == Itoa(a) && ("-" + Itoa(b))[1..] == Itoa(b);
    ItoaInjective(a, b);
  }
}
