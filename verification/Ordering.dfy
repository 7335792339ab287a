/** Code-unit string order, and sorting by it: the order `Array.prototype.sort` gives by default. */
module Ordering {

  /** Where a character stands in the order of UTF-16 code units: one beyond U+FFFF is written as a surrogate pair,
      whose first unit is below U+E000, so it comes before U+E000 to U+FFFF. */
  function Rank(c: char): int {
    if 0xE000 <= c as int <= 0xFFFF then c as int + 0x11_0000 else c as int
  }

  /** `a < b` on strings. */
  predicate Below(a: string, b: string) {
    if b == "" then false
    else if a == "" then true
    else if a[0] != b[0] then Rank(a[0]) < Rank(b[0])
    else Below(a[1..], b[1..])
  }

  // ----- UTF-16 -----

  function Units(c: char): seq<int> {
    var n := c as int;
    if n < 0x1_0000 then [n] else [0xD800 + (n - 0x1_0000) / 0x400, 0xDC00 + (n - 0x1_0000) % 0x400]
  }

  function Encoded(s: string): seq<int> {
    if s == "" then [] else Units(s[0]) + Encoded(s[1..])
  }

  /** Which of two texts in code units comes first: by the first unit in which they differ, or the shorter one. */
  ghost predicate Before(a: seq<int>, b: seq<int>) {
    exists k: nat :: k <= |a| && k < |b| && a[..k] == b[..k] && (k < |a| ==> a[k] < b[k])
  }

  /** One string is below another exactly when its code units come first. */
  lemma {:induction false} BelowIsCodeUnitOrder(a: string, b: string)
    ensures Below(a, b) <==> Before(Encoded(a), Encoded(b))
  {
    var x, y := Encoded(a), Encoded(b);
    if b == "" {
    } else if a == "" {
      assert x[..0] == y[..0];
    } else if a[0] == b[0] {
      BelowIsCodeUnitOrder(a[1..], b[1..]);
      BeforeAfterSame(Units(a[0]), Encoded(a[1..]), Encoded(b[1..]));
    } else {
      UnitsDiffer(a[0], b[0]);
      var u, v := Units(a[0]), Units(b[0]);
      var k := if u[0] != v[0] then 0 else 1;
      assert x[k] == u[k] && y[k] == v[k] && x[..k] == y[..k];
      DecidedAt(x, y, k);
    }
  }

  lemma DecidedAt(x: seq<int>, y: seq<int>, k: nat)
    requires k < |x| && k < |y| && x[..k] == y[..k] && x[k] != y[k]
    ensures Before(x, y) <==> x[k] < y[k]
  {
    assert forall i | 0 <= i < k :: x[i] == x[..k][i] == y[..k][i] == y[i];
    if m: nat :| m <= |x| && m < |y| && x[..m] == y[..m] && (m < |x| ==> x[m] < y[m]) {
      if m > k {
        assert x[..m][k] == y[..m][k];
      }
    }
  }

  lemma BeforeAfterSame(u: seq<int>, x: seq<int>, y: seq<int>)
    ensures Before(u + x, u + y) <==> Before(x, y)
  {
    assert forall i | 0 <= i < |u| :: (u + x)[i] == (u + y)[i];
    if k: nat :| k <= |x| && k < |y| && x[..k] == y[..k] && (k < |x| ==> x[k] < y[k]) {
      var m := |u| + k;
      assert (u + x)[..m] == u + x[..k] && (u + y)[..m] == u + y[..k];
      assert k < |x| ==> (u + x)[m] == x[k];
      assert (u + y)[m] == y[k];
    }
    if m: nat :| m <= |u + x| && m < |u + y| && (u + x)[..m] == (u + y)[..m] &&
                 (m < |u + x| ==> (u + x)[m] < (u + y)[m]) {
      var k := m - |u|;
      assert x[..k] == (u + x)[..m][|u|..] && y[..k] == (u + y)[..m][|u|..];
    }
  }

  /** Different characters differ in their first units or, if both are pairs that share it, in their second, and in the
      order of their ranks. */
  lemma UnitsDiffer(c: char, d: char)
    requires c != d
    ensures var u, v := Units(c), Units(d);
      if u[0] != v[0] then u[0] < v[0] <==> Rank(c) < Rank(d)
      else |u| == |v| == 2 && u[1] != v[1] && (u[1] < v[1] <==> Rank(c) < Rank(d))
  {
  }

  lemma {:induction false} BelowTotal(a: string, b: string)
    ensures !(Below(a, b) && Below(b, a)) && !Below(a, a)
    ensures a == b || Below(a, b) || Below(b, a)
  {
    if a != "" && b != "" && a[0] == b[0] {
      BelowTotal(a[1..], b[1..]);
      assert a == [a[0]] + a[1..] && b == [b[0]] + b[1..];
    }
    if a != "" {
      BelowTotal(a[1..], a[1..]);
    }
  }

  lemma {:induction false} BelowTransitive(a: string, b: string, c: string)
    requires Below(a, b) && Below(b, c)
    ensures Below(a, c)
  {
    if a != "" && a[0] == b[0] && b[0] == c[0] {
      BelowTransitive(a[1..], b[1..], c[1..]);
    }
  }

  /** Strictly ascending, so also free of duplicates. */
  ghost predicate Ascending(names: seq<string>) {
    forall i, j | 0 <= i < j < |names| :: Below(names[i], names[j])
  }

  ghost function Elements(names: seq<string>): set<string> {
    set n | n in names
  }

  /** An ascending list is determined by its elements. */
  lemma {:induction false} AscendingUnique(a: seq<string>, b: seq<string>)
    requires Ascending(a) && Ascending(b) && Elements(a) == Elements(b)
    ensures a == b
  {
    if a == [] {
      assert forall i | 0 <= i < |b| :: b[i] in Elements(b);
    } else {
      assert a[0] in Elements(b) && b != [];
      assert b[0] in Elements(a);
      BelowTotal(a[0], b[0]);
      var i :| 0 <= i < |a| && a[i] == b[0];
      var j :| 0 <= j < |b| && b[j] == a[0];
      assert a[0] == b[0];
      forall n ensures n in Elements(a[1..]) <==> n in Elements(a) && n != a[0] {
        BelowTotal(n, n);
        assert n in a && n != a[0] ==> n in a[1..];
      }
      forall n ensures n in Elements(b[1..]) <==> n in Elements(b) && n != b[0] {
        BelowTotal(n, n);
        assert n in b && n != b[0] ==> n in b[1..];
      }
      AscendingUnique(a[1..], b[1..]);
      assert a == [a[0]] + a[1..] && b == [b[0]] + b[1..];
    }
  }

  /** Puts a new name in its place. */
  method Insert(names: seq<string>, name: string) returns (r: seq<string>)
    requires Ascending(names) && name !in names
    ensures Ascending(r) && Elements(r) == Elements(names) + {name}
  {
    var i := 0;
    while i < |names| && Below(names[i], name)
      invariant 0 <= i <= |names|
      invariant forall k | 0 <= k < i :: Below(names[k], name)
    {
      i := i + 1;
    }
    r := names[..i] + [name] + names[i..];
    if i < |names| {
      BelowTotal(names[i], name);
      forall k | i <= k < |names| ensures Below(name, names[k]) {
        if k > i {
          BelowTransitive(name, names[i], names[k]);
        }
      }
    }
    forall n ensures n in Elements(r) <==> n in Elements(names) + {name} {
      if n in names {
        var k :| 0 <= k < |names| && names[k] == n;
        assert r[if k < i then k else k + 1] == n;
      }
      assert r[i] == name;
    }
  }

  /** `[...names].sort()` */
  method Sort(names: set<string>) returns (r: seq<string>)
    ensures Ascending(r) && Elements(r) == names
  {
    r := [];
    var rest := names;
    while rest != {}
      invariant rest <= names && Ascending(r) && Elements(r) == names - rest
      decreases rest
    {
      var name :| name in rest;
      assert name !in Elements(r);
      r := Insert(r, name);
      rest := rest - {name};
    }
  }
}
