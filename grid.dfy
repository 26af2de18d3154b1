/**
 * The triple loop of PopulateRoomScene, independent of what the loop body
 * emits: x runs over [-c, c), then y, then z, and the body contributes a
 * sequence of scene entries for each site. Column, Plane and Volume are the
 * concatenations the loops have produced after each step; all three are
 * stacks of slices, so their properties are proved once, for Stack.
 */
module Grid {

  /** A point of the integer grid. */
  datatype Site = Site(x: int, y: int, z: int)

  /** p lies in the walked grid [-c, c)^3. */
  predicate InGrid(c: int, p: Site)
  {
    -c <= p.x < c && -c <= p.y < c && -c <= p.z < c
  }

  /** The slices f(lo), f(lo + 1), ..., f(n - 1), concatenated in that order. */
  function Stack<T>(f: int -> seq<T>, lo: int, n: int): seq<T>
    decreases n - lo
  {
    if n <= lo then [] else Stack(f, lo, n - 1) + f(n - 1)
  }

  /** The innermost loop body as a function of z, for fixed x and y. */
  function Line<T>(emit: Site -> seq<T>, ix: int, iy: int): int -> seq<T>
  {
    z => emit(Site(ix, iy, z))
  }

  /** Output of the sites (ix, iy, z) for z from -c up to n, in loop order. */
  function Column<T>(emit: Site -> seq<T>, c: int, ix: int, iy: int, n: int): seq<T>
  {
    Stack(Line(emit, ix, iy), -c, n)
  }

  /** A full column as a function of y, for fixed x. */
  function Columns<T>(emit: Site -> seq<T>, c: int, ix: int): int -> seq<T>
  {
    y => Column(emit, c, ix, y, c)
  }

  /** Output of the full columns (ix, y, _) for y from -c up to n, in loop order. */
  function Plane<T>(emit: Site -> seq<T>, c: int, ix: int, n: int): seq<T>
  {
    Stack(Columns(emit, c, ix), -c, n)
  }

  /** A full plane as a function of x. */
  function Planes<T>(emit: Site -> seq<T>, c: int): int -> seq<T>
  {
    x => Plane(emit, c, x, c)
  }

  /** Output of the full planes (x, _, _) for x from -c up to n, in loop order. */
  function Volume<T>(emit: Site -> seq<T>, c: int, n: int): seq<T>
  {
    Stack(Planes(emit, c), -c, n)
  }

  // ---------------------------------------------------------------------
  // Stacks

  /** An element of a stack comes from one of its slices. */
  lemma {:induction false} StackWitness<T>(f: int -> seq<T>, lo: int, n: int, e: T) returns (k: int)
    requires e in Stack(f, lo, n)
    ensures lo <= k < n && e in f(k)
    decreases n - lo
  {
    assert n > lo && Stack(f, lo, n) == Stack(f, lo, n - 1) + f(n - 1);
    if e in Stack(f, lo, n - 1) {
      k := StackWitness(f, lo, n - 1, e);
    } else {
      k := n - 1;
    }
  }

  /** Every element of every stacked slice is in the stack. */
  lemma {:induction false} StackContains<T>(f: int -> seq<T>, lo: int, n: int, k: int, e: T)
    requires lo <= k < n && e in f(k)
    ensures e in Stack(f, lo, n)
    decreases n - lo
  {
    assert Stack(f, lo, n) == Stack(f, lo, n - 1) + f(n - 1);
    if k < n - 1 {
      StackContains(f, lo, n - 1, k, e);
    }
  }

  /** How many times e occurs in s. */
  function Occurrences<T(==)>(s: seq<T>, e: T): nat
  {
    if s == [] then 0 else (if s[0] == e then 1 else 0) + Occurrences(s[1..], e)
  }

  /** Occurrences in a concatenation add up. */
  lemma {:induction false} CountSplit<T>(s: seq<T>, t: seq<T>, e: T)
    ensures Occurrences(s + t, e) == Occurrences(s, e) + Occurrences(t, e)
  {
    if s == [] {
      assert s + t == t;
    } else {
      assert (s + t)[0] == s[0] && (s + t)[1..] == s[1..] + t;
      CountSplit(s[1..], t, e);
    }
  }

  /** A value that does not occur in s is counted zero times, and one that does at least once. */
  lemma {:induction false} CountMember<T>(s: seq<T>, e: T)
    ensures Occurrences(s, e) > 0 <==> e in s
  {
    if s != [] {
      assert e in s <==> s[0] == e || e in s[1..];
      CountMember(s[1..], e);
    }
  }

  /** When only slice k holds e (m times), the stack holds e m times if it includes slice k, else never. */
  lemma {:induction false} StackCount<T>(f: int -> seq<T>, lo: int, n: int, k: int, m: nat, e: T)
    requires forall j :: Occurrences(f(j), e) == if j == k then m else 0
    ensures Occurrences(Stack(f, lo, n), e) == if lo <= k < n then m else 0
    decreases n - lo
  {
    if n > lo {
      StackCount(f, lo, n - 1, k, m, e);
      CountSplit(Stack(f, lo, n - 1), f(n - 1), e);
    }
  }

  /** Stacking n - lo slices of m elements each gives (n - lo) * m elements. */
  lemma {:induction false} StackLength<T>(f: int -> seq<T>, lo: int, n: int, m: nat)
    requires forall j :: |f(j)| == m
    requires n >= lo
    ensures |Stack(f, lo, n)| == (n - lo) * m
    decreases n - lo
  {
    if n > lo {
      StackLength(f, lo, n - 1, m);
      MulStep(n - lo, m);
    }
  }

  /** One more slice of m: (k - 1) * m + m == k * m. */
  lemma MulStep(k: int, m: int)
    ensures (k - 1) * m + m == k * m
  {
  }

  /** Stacks of slices that agree are equal. */
  lemma {:induction false} StackAgree<T>(f: int -> seq<T>, g: int -> seq<T>, lo: int, n: int)
    requires forall j :: f(j) == g(j)
    ensures Stack(f, lo, n) == Stack(g, lo, n)
    decreases n - lo
  {
    if n > lo {
      StackAgree(f, g, lo, n - 1);
    }
  }

  // ---------------------------------------------------------------------
  // The walk: an entry is produced exactly when some walked site emits it

  /** The grid site that emitted an entry of the walk. */
  lemma WalkWitness<T>(emit: Site -> seq<T>, c: int, e: T) returns (p: Site)
    requires e in Volume(emit, c, c)
    ensures InGrid(c, p) && e in emit(p)
  {
    var x := StackWitness(Planes(emit, c), -c, c, e);
    var y := StackWitness(Columns(emit, c, x), -c, c, e);
    var z := StackWitness(Line(emit, x, y), -c, c, e);
    p := Site(x, y, z);
  }

  /** What a grid site emits is in the walk. */
  lemma WalkContains<T>(emit: Site -> seq<T>, c: int, p: Site, e: T)
    requires InGrid(c, p) && e in emit(p)
    ensures e in Volume(emit, c, c)
  {
    assert Line(emit, p.x, p.y)(p.z) == emit(p);
    StackContains(Line(emit, p.x, p.y), -c, c, p.z, e);
    StackContains(Columns(emit, c, p.x), -c, c, p.y, e);
    StackContains(Planes(emit, c), -c, c, p.x, e);
  }

  /** The whole walk emits e exactly when some site of [-c, c)^3 does. */
  lemma WalkMember<T>(emit: Site -> seq<T>, c: int, e: T)
    ensures e in Volume(emit, c, c) <==> exists p: Site :: InGrid(c, p) && e in emit(p)
  {
    if e in Volume(emit, c, c) {
      var p := WalkWitness(emit, c, e);
    }
    if p: Site :| InGrid(c, p) && e in emit(p) {
      WalkContains(emit, c, p, e);
    }
  }

  /** When only site p emits e, once, the walk emits e once if p is a grid site and never otherwise. */
  lemma WalkCount<T>(emit: Site -> seq<T>, c: int, p: Site, e: T)
    requires forall q :: Occurrences(emit(q), e) == if q == p then 1 else 0
    ensures Occurrences(Volume(emit, c, c), e) == if InGrid(c, p) then 1 else 0
  {
    forall x, y
      ensures Occurrences(Column(emit, c, x, y, c), e) == if x == p.x && y == p.y && -c <= p.z < c then 1 else 0
    {
      var m := if x == p.x && y == p.y then 1 else 0;
      forall z ensures Occurrences(Line(emit, x, y)(z), e) == if z == p.z then m else 0 {
        assert Line(emit, x, y)(z) == emit(Site(x, y, z));
      }
      StackCount(Line(emit, x, y), -c, c, p.z, m, e);
    }
    forall x
      ensures Occurrences(Plane(emit, c, x, c), e) == if x == p.x && -c <= p.y < c && -c <= p.z < c then 1 else 0
    {
      var m := if x == p.x && -c <= p.z < c then 1 else 0;
      StackCount(Columns(emit, c, x), -c, c, p.y, m, e);
    }
    var m := if -c <= p.y < c && -c <= p.z < c then 1 else 0;
    StackCount(Planes(emit, c), -c, c, p.x, m, e);
  }

  /** When every site emits exactly one entry, the walk has (2c)^3 entries. */
  lemma WalkLength<T>(emit: Site -> seq<T>, c: int)
    requires forall q :: |emit(q)| == 1
    requires c >= 0
    ensures |Volume(emit, c, c)| == (2 * c) * ((2 * c) * (2 * c))
  {
    forall x, y ensures |Column(emit, c, x, y, c)| == 2 * c {
      StackLength(Line(emit, x, y), -c, c, 1);
    }
    forall x ensures |Plane(emit, c, x, c)| == (2 * c) * (2 * c) {
      StackLength(Columns(emit, c, x), -c, c, 2 * c);
    }
    StackLength(Planes(emit, c), -c, c, (2 * c) * (2 * c));
  }

  /** Walks of emitters that agree on every site are equal. */
  lemma WalkAgree<T>(f: Site -> seq<T>, g: Site -> seq<T>, c: int)
    requires forall q :: f(q) == g(q)
    ensures Volume(f, c, c) == Volume(g, c, c)
  {
    forall x ensures Plane(f, c, x, c) == Plane(g, c, x, c) {
      forall y ensures Column(f, c, x, y, c) == Column(g, c, x, y, c) {
        StackAgree(Line(f, x, y), Line(g, x, y), -c, c);
      }
      StackAgree(Columns(f, c, x), Columns(g, c, x), -c, c);
    }
    StackAgree(Planes(f, c), Planes(g, c), -c, c);
  }
}
