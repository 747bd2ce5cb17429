/** Middleware chains over Go slices: a chain is a length into a backing array that other chains
    may share, so adding to one chain can write where another one looks. */
module MiddlewareChain {

  /** `middlewares` is the slice cells[..len] with capacity cells.Length. */
  datatype Chain<!H, !R> = Chain(cells: array<H -> H>, len: nat, errorHandler: H -> R)

  ghost predicate Valid<H, R>(c: Chain<H, R>) {
    c.len <= c.cells.Length
  }

  ghost predicate Full<H, R>(c: Chain<H, R>) {
    c.len == c.cells.Length
  }

  /** The middlewares of the chain, outermost first. */
  ghost function View<H, R>(c: Chain<H, R>): seq<H -> H>
    requires Valid(c)
    reads c.cells
  {
    c.cells[..c.len]
  }

  /** Middlewares wrapped around a handler, the first one outermost. */
  function FoldRight<H>(ms: seq<H -> H>, h: H): H {
    if ms == [] then h else ms[0](FoldRight(ms[1..], h))
  }

  /** Adding a middleware and then resolving is resolving with the handler already wrapped. */
  lemma {:induction false} FoldOfAdded<H>(ms: seq<H -> H>, m: H -> H, h: H)
    ensures FoldRight(ms + [m], h) == FoldRight(ms, m(h))
  {
    if ms == [] {
      assert ms + [m] == [m];
      assert FoldRight([m], h) == m(FoldRight([m][1..], h));
    } else {
      assert (ms + [m])[0] == ms[0] && (ms + [m])[1..] == ms[1..] + [m];
      FoldOfAdded(ms[1..], m, h);
    }
  }

  lemma FoldOfThree<H(!new)>(v: seq<H -> H>, m1: H -> H, m2: H -> H, m3: H -> H)
    requires forall h :: FoldRight(v, h) == h
    ensures forall h :: FoldRight(v + [m1] + [m2] + [m3], h) == m1(m2(m3(h)))
  {
    forall h ensures FoldRight(v + [m1] + [m2] + [m3], h) == m1(m2(m3(h))) {
      FoldOfAdded(v + [m1] + [m2], m3, h);
      FoldOfAdded(v + [m1], m2, m3(h));
      FoldOfAdded(v, m1, m2(m3(h)));
    }
  }

  /** append's capacity growth for short slices. */
  function Grow(capacity: nat): (n: nat)
    ensures n > capacity
  {
    if capacity == 0 then 1 else 2 * capacity
  }

  method New<H(!new), R>(errorHandler: H -> R) returns (c: Chain<H, R>)
    ensures Valid(c) && Full(c) && fresh(c.cells) && c.errorHandler == errorHandler
    ensures c.len == 1 && forall h :: FoldRight(View(c), h) == h
  {
    var identity: H -> H := h => h;
    var cells := new (H -> H)[1](_ => identity);
    c := Chain(cells, 1, errorHandler);
    assert cells[..1] == [identity];
    forall h ensures FoldRight([identity], h) == h {
      assert FoldRight([identity], h) == identity(FoldRight([identity][1..], h));
    }
  }

  /** Chain.Add: the receiver keeps its view; only its spare capacity is ever written. */
  method Add<H, R>(c: Chain<H, R>, m: H -> H) returns (d: Chain<H, R>)
    requires Valid(c)
    modifies c.cells
    ensures Valid(d) && d.errorHandler == c.errorHandler
    ensures View(d) == old(View(c)) + [m]
    ensures View(c) == old(View(c))
    ensures Full(c) ==> fresh(d.cells) && unchanged(c.cells) && d.cells.Length == Grow(c.cells.Length)
    ensures !Full(c) ==>
      && d.cells == c.cells && c.cells[c.len] == m
      && forall i :: 0 <= i < c.cells.Length && i != c.len ==> c.cells[i] == old(c.cells[i])
  {
    if c.len < c.cells.Length {
      c.cells[c.len] := m;
      d := Chain(c.cells, c.len + 1, c.errorHandler);
    } else {
      var old' := c.cells[..];
      var grown := new (H -> H)[Grow(c.len)](i => if 0 <= i < |old'| then old'[i] else m);
      d := Chain(grown, c.len + 1, c.errorHandler);
      assert View(d) == old' + [m];
    }
  }

  /** Chain.Resolve: the loop in foldMiddleware runs from the last middleware to the first. */
  method Resolve<H, R>(c: Chain<H, R>, routeHandler: H) returns (r: R)
    requires Valid(c)
    ensures r == c.errorHandler(FoldRight(View(c), routeHandler))
  {
    var h := routeHandler;
    var i := c.len;
    while i > 0
      invariant 0 <= i <= c.len
      invariant h == FoldRight(c.cells[i..c.len], routeHandler)
    {
      i := i - 1;
      assert c.cells[i..c.len][1..] == c.cells[i + 1..c.len];
      h := c.cells[i](h);
    }
    assert c.cells[0..c.len] == View(c);
    r := c.errorHandler(h);
  }

  /** `c.Add(m).Resolve(h)` is `c.Resolve(m(h))`. */
  method AddThenResolve<H, R>(c: Chain<H, R>, m: H -> H, h: H) returns (r: R)
    requires Valid(c)
    modifies c.cells
    ensures r == c.errorHandler(FoldRight(old(View(c)), m(h)))
  {
    var d := Add(c, m);
    r := Resolve(d, h);
    FoldOfAdded(old(View(c)), m, h);
  }

  /** Two siblings of one parent: the second replaces the first one's last middleware exactly when
      the parent had spare capacity; from a full parent they are independent. */
  method Siblings<H, R>(c: Chain<H, R>, m1: H -> H, m2: H -> H) returns (d1: Chain<H, R>, d2: Chain<H, R>)
    requires Valid(c)
    modifies c.cells
    ensures Valid(d1) && Valid(d2) && View(c) == old(View(c))
    ensures View(d1) == old(View(c)) + [if Full(c) then m1 else m2]
    ensures View(d2) == old(View(c)) + [m2]
  {
    d1 := Add(c, m1);
    d2 := Add(c, m2);
  }

  /** A run of Adds, as the server writes them. */
  method AddAll<H, R>(c: Chain<H, R>, ms: seq<H -> H>) returns (d: Chain<H, R>)
    requires Valid(c)
    modifies c.cells
    ensures Valid(d) && View(d) == old(View(c)) + ms && View(c) == old(View(c))
    ensures d.errorHandler == c.errorHandler
    ensures Full(c) ==> unchanged(c.cells) && (ms == [] ==> d == c) && (ms != [] ==> fresh(d.cells))
  {
    d := c;
    for i := 0 to |ms|
      invariant Valid(d) && View(d) == old(View(c)) + ms[..i] && View(c) == old(View(c))
      invariant d.errorHandler == c.errorHandler && (i == 0 ==> d == c)
      invariant d.cells == c.cells || fresh(d.cells)
      invariant d.cells == c.cells ==> d.len >= c.len
      invariant Full(c) ==> unchanged(c.cells) && (i > 0 ==> fresh(d.cells))
    {
      ghost var before := c.cells[..c.len];
      d := Add(d, ms[i]);
      assert ms[..i + 1] == ms[..i] + [ms[i]];
      assert c.cells[..c.len] == before;
    }
    assert ms[..|ms|] == ms;
  }

  /** The server's branch point (three Adds after New) is full: capacities 1, 2, 4, 4. */
  method BranchPoint<H(!new), R>(errorHandler: H -> R, m1: H -> H, m2: H -> H, m3: H -> H) returns (root: Chain<H, R>)
    ensures Valid(root) && Full(root) && fresh(root.cells) && root.errorHandler == errorHandler
    ensures root.len == 4
    ensures forall h :: FoldRight(View(root), h) == m1(m2(m3(h)))
  {
    var c0 := New(errorHandler);
    ghost var v := View(c0);
    var c1 := Add(c0, m1);
    var c2 := Add(c1, m2);
    root := Add(c2, m3);
    assert View(root) == v + [m1] + [m2] + [m3];
    FoldOfThree(v, m1, m2, m3);
  }

  /** One middleware fewer, and the branch point would not be full: of two branches off it, the second
      would overwrite the first one's middleware. */
  method OneFewer<H(!new), R>(errorHandler: H -> R, m1: H -> H, m2: H -> H, b1: H -> H, b2: H -> H)
    returns (first: Chain<H, R>, second: Chain<H, R>)
    ensures Valid(first) && Valid(second) && View(first) == View(second)
    ensures |View(first)| == 4 && View(first)[3] == b2
  {
    var c0 := New(errorHandler);
    var c1 := Add(c0, m1);
    var c2 := Add(c1, m2);
    first, second := Siblings(c2, b1, b2);
  }

  /** Branches off a full parent never disturb each other, however many middlewares each adds. */
  method TwoBranches<H, R>(root: Chain<H, R>, ms1: seq<H -> H>, ms2: seq<H -> H>)
    returns (b1: Chain<H, R>, b2: Chain<H, R>)
    requires Valid(root) && Full(root)
    modifies root.cells
    ensures Valid(b1) && Valid(b2)
    ensures View(root) == old(View(root)) && View(b1) == View(root) + ms1 && View(b2) == View(root) + ms2
  {
    b1 := AddAll(root, ms1);
    b2 := AddAll(root, ms2);
  }
}
