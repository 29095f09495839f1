/** The shelf packer that places glyph bitmaps in a texture. */
module RectPacker {

  // A rectangle to pack; x and y mean something once it is packed.
  datatype Rect = Rect(id: int, w: nat, h: nat, x: int, y: int, wasPacked: bool)

  // No area in common.
  predicate Apart(a: Rect, b: Rect) {
    a.x + a.w <= b.x || b.x + b.w <= a.x || a.y + a.h <= b.y || b.y + b.h <= a.y
  }

  predicate Inside(r: Rect, width: int, height: int) {
    0 <= r.x && r.x + r.w <= width && 0 <= r.y && r.y + r.h <= height
  }

  // Where the current shelf stands: the next place on it, and the lowest edge of everything so far.
  datatype Shelf = Shelf(x: int, y: int, bottom: int)

  // A rectangle that does not fit the rest of the shelf starts a new one.
  function ShelfFor(s: Shelf, width: int, w: nat): Shelf {
    if s.x + w > width then s.(x := 0, y := s.bottom) else s
  }

  function Put(s: Shelf, w: nat, h: nat): Shelf {
    Shelf(s.x + w, s.y, if s.y + h > s.bottom then s.y + h else s.bottom)
  }

  // Finished rectangles lie above the current shelf, or on it to the left of the next place; below the edge there is
  // nothing.
  predicate Clear(s: Shelf, r: Rect) {
    r.y + r.h <= s.bottom && (r.y + r.h <= s.y || (r.y == s.y && r.x + r.w <= s.x))
  }

  // Everything placed is clear of the shelf, apart from everything else, and inside the target unless wider than it.
  ghost predicate Sound(s: Shelf, width: int, height: int, placed: seq<Rect>) {
    && 0 <= s.x && 0 <= s.y <= s.bottom <= height && 0 <= width
    && (forall i | 0 <= i < |placed| :: Clear(s, placed[i]))
    && (forall i, j | 0 <= i < j < |placed| :: Apart(placed[i], placed[j]))
    && (forall i | 0 <= i < |placed| :: Inside(placed[i], width, height) <==> placed[i].w <= width)
  }

  lemma NewShelf(s: Shelf, width: int, height: int, w: nat, placed: seq<Rect>)
    requires Sound(s, width, height, placed)
    ensures Sound(ShelfFor(s, width, w), width, height, placed)
  {
    hide Apart, Inside;
  }

  lemma PlaceOne(s: Shelf, width: int, height: int, p: Rect, placed: seq<Rect>)
    requires Sound(s, width, height, placed) && p.x == s.x && p.y == s.y && s.y + p.h <= height
    requires s.x + p.w <= width || s.x == 0
    ensures Sound(Put(s, p.w, p.h), width, height, placed + [p])
  {
    hide Inside;
    var more := placed + [p];
    assert Inside(p, width, height) <==> p.w <= width by { OnShelf(s, width, height, p); }
    forall i | 0 <= i < |more| ensures Clear(Put(s, p.w, p.h), more[i]) {
      if i < |placed| { assert Clear(s, placed[i]); }
    }
    forall i, j | 0 <= i < j < |more| ensures Apart(more[i], more[j]) {
      if j == |placed| { assert Clear(s, placed[i]); }
    }
  }

  lemma OnShelf(s: Shelf, width: int, height: int, p: Rect)
    requires 0 <= s.x && 0 <= s.y && p.x == s.x && p.y == s.y && s.y + p.h <= height
    requires s.x + p.w <= width || s.x == 0
    ensures Inside(p, width, height) <==> p.w <= width
  {}

  function Placed(s: Shelf, r: Rect): Rect {
    r.(x := s.x, y := s.y, wasPacked := true)
  }

  // What is placed of these rectangles, in order, and the shelf on which the next one does not fit.
  datatype Packing = Packing(placed: seq<Rect>, shelf: Shelf)

  function PackingOf(s: Shelf, width: int, height: int, rects: seq<Rect>): Packing
    decreases |rects|
  {
    if rects == [] then Packing([], s)
    else
      var r, t := rects[0], ShelfFor(s, width, rects[0].w);
      if t.y + r.h > height then Packing([], t)
      else
        var rest := PackingOf(Put(t, r.w, r.h), width, height, rects[1..]);
        Packing([Placed(t, r)] + rest.placed, rest.shelf)
  }

  // A rectangle wider than the target is placed all the same, and sticks out.
  lemma TooWideSticksOut()
    ensures var r := Rect(0, 20, 1, 0, 0, false); var p := PackingOf(Shelf(0, 0, 0), 10, 10, [r]);
      |p.placed| == 1 && p.placed[0].wasPacked && !Inside(p.placed[0], 10, 10)
  {}

  // The first `done` have been placed and the packing of the others is still to come.
  ghost predicate PackingSoFar(whole: Packing, done: seq<Rect>, rest: Packing) {
    whole == Packing(done + rest.placed, rest.shelf)
  }

  lemma PackingStep(whole: Packing, done: seq<Rect>, s: Shelf, width: int, height: int, rects: seq<Rect>, i: nat)
    requires i < |rects| && PackingSoFar(whole, done, PackingOf(s, width, height, rects[i..]))
    ensures var r := rects[i]; var t := ShelfFor(s, width, r.w);
      if t.y + r.h > height then whole == Packing(done, t)
      else PackingSoFar(whole, done + [Placed(t, r)], PackingOf(Put(t, r.w, r.h), width, height, rects[i + 1..]))
  {
    assert rects[i..][1..] == rects[i + 1..];
  }

  lemma PackingEnds(whole: Packing, done: seq<Rect>, s: Shelf, width: int, height: int, rects: seq<Rect>)
    ensures PackingSoFar(PackingOf(s, width, height, rects), [], PackingOf(s, width, height, rects[0..]))
    ensures PackingSoFar(whole, done, PackingOf(s, width, height, rects[|rects|..])) ==> whole == Packing(done, s)
  {
    assert rects[0..] == rects;
  }

  // The first k of the n rectangles have been placed, those from k to i marked as left out; only places and marks have
  // changed.
  ghost predicate Packed(before: seq<Rect>, now: seq<Rect>, k: nat, i: nat) {
    && |now| == |before| && k <= i <= |now|
    && forall j | 0 <= j < |now| ::
         now[j] == if j < k then before[j].(x := now[j].x, y := now[j].y, wasPacked := true)
                   else if j < i then before[j].(wasPacked := false) else before[j]
  }

  lemma PackedMore(before: seq<Rect>, now: seq<Rect>, k: nat, x: int, y: int)
    requires Packed(before, now, k, k) && k < |now|
    ensures now[k] == before[k]
    ensures var p := now[k].(x := x, y := y, wasPacked := true);
      Packed(before, now[k := p], k + 1, k + 1) && now[k := p][..k + 1] == now[..k] + [p]
  {}

  lemma PackedNext(before: seq<Rect>, now: seq<Rect>, k: nat)
    requires Packed(before, now, k, k) && k < |now|
    ensures |before| == |now| && now[k] == before[k]
  {}

  lemma LeftOut(before: seq<Rect>, now: seq<Rect>, k: nat, i: nat)
    requires Packed(before, now, k, i) && i < |now|
    ensures var p := now[i].(wasPacked := false); Packed(before, now[i := p], k, i + 1) && now[i := p][..k] == now[..k]
  {}

  class Context {
    const width: int
    const height: int
    var x: int
    var y: int
    var bottomY: int
    // Everything placed by any call so far.
    ghost var placed: seq<Rect>

    constructor (width: int, height: int)
      requires 0 <= width && 0 <= height
      ensures Valid() && placed == [] && this.width == width && this.height == height && Now() == Shelf(0, 0, 0)
    {
      this.width, this.height := width, height;
      x, y, bottomY, placed := 0, 0, 0, [];
    }

    function Now(): Shelf
      reads this
    {
      Shelf(x, y, bottomY)
    }

    ghost predicate Valid()
      reads this
    {
      Sound(Now(), width, height, placed)
    }

    // Places rectangles until one is too high for the rest of the target; that one and the others are left out.
    method PackRects(rects: array<Rect>, n: nat) returns (k: nat)
      requires Valid() && n <= rects.Length
      modifies this, rects
      ensures Valid() && k <= n && placed == old(placed) + rects[..k]
      ensures Packing(rects[..k], Now()) == PackingOf(old(Now()), width, height, old(rects[..n]))
      ensures Packed(old(rects[..]), rects[..], k, n)
      ensures k < n ==> ShelfFor(Now(), width, rects[k].w) == Now() && y + rects[k].h > height
    {
      hide Sound, Packed, PackingSoFar, PackingOf;
      ghost var before, earlier, wanted := rects[..], placed, rects[..n];
      ghost var whole := PackingOf(Now(), width, height, wanted);
      NonePacked(before);
      PackingEnds(whole, [], Now(), width, height, wanted);
      var i: nat := 0;
      while i < n
        invariant i <= n && Valid() && placed == earlier + rects[..i] && Packed(before, rects[..], i, i)
        invariant PackingSoFar(whole, rects[..i], PackingOf(Now(), width, height, wanted[i..]))
      {
        PackedNext(before, rects[..], i);
        PackingStep(whole, rects[..i], Now(), width, height, wanted, i);
        NewShelf(Now(), width, height, rects[i].w, placed);
        if x + rects[i].w > width {
          x := 0;
          y := bottomY;
        }
        if y + rects[i].h > height {
          break;
        }
        var p := rects[i].(x := x, y := y, wasPacked := true);
        PackedMore(before, rects[..], i, x, y);
        PlaceOne(Now(), width, height, p, placed);
        rects[i] := p;
        x := x + p.w;
        if y + p.h > bottomY {
          bottomY := y + p.h;
        }
        placed := placed + [p];
        i := i + 1;
      }
      k := i;
      PackingEnds(whole, rects[..k], Now(), width, height, wanted);
      while i < n
        invariant whole == Packing(rects[..k], Now())
        invariant k <= i <= n && Valid() && placed == earlier + rects[..k] && Packed(before, rects[..], k, i)
        invariant k < n ==> ShelfFor(Now(), width, rects[k].w) == Now() && y + rects[k].h > height
      {
        LeftOut(before, rects[..], k, i);
        rects[i] := rects[i].(wasPacked := false);
        i := i + 1;
      }
    }
  }

  lemma NonePacked(before: seq<Rect>)
    ensures Packed(before, before, 0, 0)
  {}
}
