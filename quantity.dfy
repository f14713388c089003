/**
 * Inventory totals. `Sum` is the mathematical total of a warehouse list;
 * `SumOf` is what Kotlin's `sumOf { it.quantity }` computes on `Int`: a left
 * fold whose every addition wraps around modulo 2^32.
 */
module Quantity {
  import opened Dto

  const Two31: int := 0x8000_0000
  const Two32: int := 0x1_0000_0000

  predicate InInt32Range(x: int) {
    -Two31 <= x < Two31
  }

  /** `x` and `y` are equal modulo 2^32. */
  predicate Congruent32(x: int, y: int) {
    (x - y) % Two32 == 0
  }

  /** The Int32 value that 32-bit two's-complement arithmetic yields for the exact result `x`. */
  function Wrap32(x: int): (r: Int32)
    ensures Congruent32(r, x)
    ensures InInt32Range(x) ==> r == x
  {
    var q := (x + Two31) / Two32;
    var w := (x + Two31) % Two32 - Two31;
    assert x + Two31 == Two32 * q + (x + Two31) % Two32;
    CongruentMultiple(w, x, -q);
    w
  }

  lemma CongruentMultiple(x: int, y: int, k: int)
    requires x - y == Two32 * k
    ensures Congruent32(x, y)
  {
  }

  /** Congruence is an equivalence relation compatible with addition. */
  lemma CongruentAdd(a: int, a': int, b: int)
    requires Congruent32(a, a')
    ensures Congruent32(a + b, a' + b)
  {
  }

  lemma CongruentTrans(a: int, b: int, c: int)
    requires Congruent32(a, b) && Congruent32(b, c)
    ensures Congruent32(a, c)
  {
    var p := (a - b) / Two32;
    var q := (b - c) / Two32;
    assert a - b == Two32 * p;
    assert b - c == Two32 * q;
    CongruentMultiple(a, c, p + q);
  }

  /** Wrap32 is the only Int32 value congruent to `x`. */
  lemma WrapUnique(x: int, r: int)
    requires InInt32Range(r) && Congruent32(r, x)
    ensures Wrap32(x) == r
  {
    var w := Wrap32(x);
    var k := (w - r) / Two32;
    CongruentTrans(w, x, r) by {
      assert Congruent32(x, r) by {
        var j := (r - x) / Two32;
        assert r - x == Two32 * j;
        CongruentMultiple(x, r, -j);
      }
    }
    assert w - r == Two32 * k;
  }

  /** Wrapping an intermediate result does not change the final wrapped value. */
  lemma WrapAdd(a: int, b: int)
    ensures Wrap32(Wrap32(a) + b) == Wrap32(a + b)
  {
    var w := Wrap32(a + b);
    CongruentAdd(Wrap32(a), a, b);
    CongruentTrans(w, a + b, Wrap32(a) + b) by {
      var j := (Wrap32(a) + b - (a + b)) / Two32;
      assert Wrap32(a) + b - (a + b) == Two32 * j;
      CongruentMultiple(a + b, Wrap32(a) + b, -j);
    }
    WrapUnique(Wrap32(a) + b, w);
  }

  /** The exact total of the warehouse quantities. */
  function Sum(ws: seq<Warehouse>): int {
    if ws == [] then 0 else Sum(ws[..|ws| - 1]) + ws[|ws| - 1].quantity
  }

  /**
   * Kotlin's `sumOf { it.quantity }`: starting from 0, add each quantity in
   * list order with 32-bit wrap-around. Its result is the exact total reduced
   * into Int32, so it equals the exact total whenever that fits.
   */
  function SumOf(ws: seq<Warehouse>): (total: Int32)
    ensures total == Wrap32(Sum(ws))
    ensures InInt32Range(Sum(ws)) ==> total == Sum(ws)
  {
    if ws == [] then 0
    else
      var prefix := ws[..|ws| - 1];
      WrapAdd(Sum(prefix), ws[|ws| - 1].quantity);
      Wrap32(SumOf(prefix) + ws[|ws| - 1].quantity)
  }

  lemma {:induction false} SumAppend(a: seq<Warehouse>, b: seq<Warehouse>)
    ensures Sum(a + b) == Sum(a) + Sum(b)
    decreases |b|
  {
    if b == [] {
      assert a + b == a;
    } else {
      var b' := b[..|b| - 1];
      assert (a + b)[..|a + b| - 1] == a + b';
      SumAppend(a, b');
    }
  }

  /** The total does not depend on the order of the warehouses. */
  lemma {:induction false} SumPermutation(a: seq<Warehouse>, b: seq<Warehouse>)
    requires multiset(a) == multiset(b)
    ensures Sum(a) == Sum(b)
    decreases |a|
  {
    if a == [] {
      assert |b| == |multiset(b)| == 0;
    } else {
      var last := a[|a| - 1];
      var a' := a[..|a| - 1];
      assert a == a' + [last];
      assert last in multiset(b);
      var i :| 0 <= i < |b| && b[i] == last;
      assert b == b[..i] + [last] + b[i + 1..];
      var b' := b[..i] + b[i + 1..];
      calc {
        multiset(a') + multiset{last};
        multiset(a);
        multiset(b);
        multiset(b[..i]) + multiset{last} + multiset(b[i + 1..]);
        multiset(b') + multiset{last};
      }
      assert multiset(a') == multiset(a') + multiset{last} - multiset{last};
      assert multiset(b') == multiset(b') + multiset{last} - multiset{last};
      SumPermutation(a', b');
      SumAppend(b[..i], [last]);
      SumAppend(b[..i] + [last], b[i + 1..]);
      SumAppend(b[..i], b[i + 1..]);
    }
  }

  /** So Kotlin's wrapping `sumOf` is order-independent too. */
  lemma SumOfPermutation(a: seq<Warehouse>, b: seq<Warehouse>)
    requires multiset(a) == multiset(b)
    ensures SumOf(a) == SumOf(b)
  {
    SumPermutation(a, b);
  }

  predicate NoNegativeStock(ws: seq<Warehouse>) {
    forall i :: 0 <= i < |ws| ==> ws[i].quantity >= 0
  }

  predicate SomeStock(ws: seq<Warehouse>) {
    exists i :: 0 <= i < |ws| && ws[i].quantity > 0
  }

  /** With no negative quantities the exact total is positive exactly when some warehouse has stock. */
  lemma {:induction false} SumPositiveIffSomeStock(ws: seq<Warehouse>)
    requires NoNegativeStock(ws)
    ensures Sum(ws) >= 0
    ensures Sum(ws) > 0 <==> SomeStock(ws)
  {
    if ws != [] {
      var prefix := ws[..|ws| - 1];
      assert NoNegativeStock(prefix) by {
        forall i | 0 <= i < |prefix| ensures prefix[i].quantity >= 0 {
          assert prefix[i] == ws[i];
        }
      }
      SumPositiveIffSomeStock(prefix);
      if SomeStock(prefix) {
        var i :| 0 <= i < |prefix| && prefix[i].quantity > 0;
        assert ws[i] == prefix[i];
      }
      if SomeStock(ws) && ws[|ws| - 1].quantity <= 0 {
        var i :| 0 <= i < |ws| && ws[i].quantity > 0;
        assert prefix[i] == ws[i];
      }
    }
  }
}
