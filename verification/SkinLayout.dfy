/**
 The docking layout of skin widgets (enigma2/skin.py): a context hands out
 rectangles at its edges and keeps the rest, and a rectangle it has handed out
 can become a context of its own.
 */
module SkinLayout {
  import opened Sequences

  // -- coordinates

  datatype Base = Zero | Extent | Half

  /** A parsed coordinate: "center", "*", or a base letter with an optional percentage or number. */
  datatype Coord = Center | Star | Sum(base: Base, percent: bool, n: int)

  function AtLeastZero(v: int): int {
    if v < 0 then 0 else v
  }

  /** `parseCoordinate`; the divisions round down. */
  function ParseCoordinate(s: Coord, e: int, size: int): Option<int> {
    match s
    case Center => Some(AtLeastZero((e - size) / 2))
    case Star => None
    case Sum(b, percent, n) =>
      var start := match b case Zero => 0 case Extent => e case Half => e / 2;
      Some(AtLeastZero(start + if percent then e * n / 100 else n))
  }

  /** A plain percentage of a positive extent stays within it exactly when it is less than one pixel above 100. */
  lemma PercentageFitsIff(e: int, n: int)
    requires e > 0
    ensures var v := ParseCoordinate(Sum(Zero, true, n), e, 0);
            v.Some? && 0 <= v.value && (v.value <= e <==> e * n < 100 * e + 100)
  {
  }

  lemma PercentageFits(e: int, n: int)
    requires e >= 0 && n <= 100
    ensures 0 <= ParseCoordinate(Sum(Zero, true, n), e, 0).value <= e
  {
    assert e * n <= e * 100 by { AtMost(e, n, 100); }
  }

  lemma AtMost(k: int, a: int, b: int)
    requires k >= 0 && a <= b
    ensures k * a <= k * b
  {
  }

  /** A centred widget has equal margins, up to one pixel on the far side; one that is too large starts at 0. */
  lemma CentredIff(e: int, size: int)
    ensures var v := ParseCoordinate(Center, e, size);
            v.Some? && if size <= e then 0 <= (e - size - v.value) - v.value <= 1 else v.value == 0
  {
  }

  /** Coordinates in plain numbers, where they are not cut at 0: the distance from the base, in pixels or in hundredths rounded down. */
  lemma CoordinateIs(b: Base, percent: bool, n: int, e: int, size: int) returns (from: int)
    ensures match b case Zero => from == 0 case Extent => from == e case Half => 2 * from == e || 2 * from == e - 1
    ensures var v := ParseCoordinate(Sum(b, percent, n), e, size);
            v.Some? && v.value >= 0 &&
            (v.value > 0 ==>
               if percent then 100 * (v.value - from) <= e * n < 100 * (v.value - from) + 100 else v.value - from == n)
  {
    from := match b case Zero => 0 case Extent => e case Half => e / 2;
    var v := ParseCoordinate(Sum(b, percent, n), e, size).value;
    if v > 0 && percent {
      assert v - from == e * n / 100;
    }
  }

  // -- one context

  datatype Rect = Rect(x: int, y: int, w: int, h: int)

  datatype Side = Fill | Top | Bottom | Left | Right

  predicate Inside(r: Rect, px: int, py: int) {
    r.x <= px < r.x + r.w && r.y <= py < r.y + r.h
  }

  /** The rectangle a widget docked with the extent `n` gets, and what the context keeps. */
  function Place(c: Rect, side: Side, n: int): (Rect, Rect) {
    match side
    case Fill => (c, c.(w := 0, h := 0))
    case Bottom => (Rect(c.x, c.y + c.h - n, c.w, n), c.(h := c.h - n))
    case Top => (Rect(c.x, c.y, c.w, n), c.(h := c.h - n, y := c.y + n))
    case Left => (Rect(c.x, c.y, n, c.h), c.(x := c.x + n, w := c.w - n))
    case Right => (Rect(c.x + c.w - n, c.y, n, c.h), c.(w := c.w - n))
  }

  /** The extent asked for lies within what is left. */
  predicate Fits(c: Rect, side: Side, n: int) {
    match side
    case Fill => true
    case Top => 0 <= n <= c.h
    case Bottom => 0 <= n <= c.h
    case Left => 0 <= n <= c.w
    case Right => 0 <= n <= c.w
  }

  predicate Proper(r: Rect) {
    r.w >= 0 && r.h >= 0
  }

  function Hits(r: Rect, px: int, py: int): nat {
    if Inside(r, px, py) then 1 else 0
  }

  /** `a` and `b` together cover `c`, every pixel once, and nothing else. */
  ghost predicate Splits(c: Rect, a: Rect, b: Rect) {
    forall px, py {:trigger Hits(c, px, py)} :: Hits(a, px, py) + Hits(b, px, py) == Hits(c, px, py)
  }

  /** Docking splits a context that still has pixels if and only if the extent asked for fits. */
  lemma PlaceSplitsIff(c: Rect, side: Side, n: int)
    requires c.w > 0 && c.h > 0
    ensures Splits(c, Place(c, side, n).0, Place(c, side, n).1) <==> Fits(c, side, n)
  {
    var (a, b) := Place(c, side, n);
    if !Fits(c, side, n) {
      var (px, py) := match side
        case Top => (c.x, if n < 0 then c.y - 1 else c.y + n - 1)
        case Bottom => (c.x, if n < 0 then c.y + c.h else c.y + c.h - n)
        case Left => (if n < 0 then c.x - 1 else c.x + n - 1, c.y)
        case _ => (if n < 0 then c.x + c.w else c.x + c.w - n, c.y);
      assert Hits(a, px, py) + Hits(b, px, py) != Hits(c, px, py);
    }
  }

  /** A docked widget touches its own side of the context, over its whole length, and what is kept touches the other one. */
  lemma DockedAtItsSide(c: Rect, side: Side, n: int)
    ensures var (a, b) := Place(c, side, n);
            match side
            case Top => a.y == c.y && a.h == n && b.y + b.h == c.y + c.h && a.x == b.x == c.x && a.w == b.w == c.w
            case Bottom => a.y + a.h == c.y + c.h && a.h == n && b.y == c.y && a.x == b.x == c.x && a.w == b.w == c.w
            case Left => a.x == c.x && a.w == n && b.x + b.w == c.x + c.w && a.y == b.y == c.y && a.h == b.h == c.h
            case Right => a.x + a.w == c.x + c.w && a.w == n && b.x == c.x && a.y == b.y == c.y && a.h == b.h == c.h
            case Fill => a == c && forall px, py :: !Inside(b, px, py)
  {
  }

  function Area(r: Rect): int {
    r.w * r.h
  }

  lemma PlaceSplits(c: Rect, side: Side, n: int)
    requires Proper(c) && Fits(c, side, n)
    ensures var (a, b) := Place(c, side, n);
            Splits(c, a, b) && Proper(a) && Proper(b) && Area(a) + Area(b) == Area(c)
  {
    match side {
      case Fill =>
      case Top => Distribute(c.w, n, c.h - n);
      case Bottom => Distribute(c.w, n, c.h - n);
      case Left => Distribute(c.h, n, c.w - n);
      case Right => Distribute(c.h, n, c.w - n);
    }
  }

  lemma Distribute(k: int, a: int, b: int)
    ensures k * a + k * b == k * (a + b)
  {
  }

  // -- nested contexts

  /** A widget docked to a side.  A panel's own widgets are docked inside the rectangle the panel gets. */
  datatype Widget =
    | Plain(side: Side, w: Coord, h: Coord)
    | Panel(side: Side, w: Coord, h: Coord, parts: seq<Widget>)

  /** The extent a widget asks for; there is none for "*" along the side it is docked to. */
  function Asked(c: Rect, v: Widget): Option<int> {
    match v.side
    case Fill => Some(0)
    case Top => ParseCoordinate(v.h, c.h, 0)
    case Bottom => ParseCoordinate(v.h, c.h, 0)
    case Left => ParseCoordinate(v.w, c.w, 0)
    case Right => ParseCoordinate(v.w, c.w, 0)
  }

  /**
   What a list of widgets cuts a context into: innermost rectangles and unused
   rests.  A panel without an extent is skipped with a message; any other
   widget without one ends the whole screen (None).
   */
  function Pieces(c: Rect, widgets: seq<Widget>): Option<seq<Rect>>
    decreases widgets
  {
    if widgets == [] then Some([c])
    else
      var v := widgets[0];
      var n := Asked(c, v);
      if n == None then if v.Panel? then Pieces(c, widgets[1..]) else None
      else
        var (a, b) := Place(c, v.side, n.value);
        var inner := if v.Panel? then Pieces(a, v.parts) else Some([a]);
        var outer := Pieces(b, widgets[1..]);
        if inner == None || outer == None then None else Some(inner.value + outer.value)
  }

  /** Every extent asked for fits in what is left at that point. */
  predicate AllFit(c: Rect, widgets: seq<Widget>)
    decreases widgets
  {
    if widgets == [] then true
    else
      var v := widgets[0];
      var n := Asked(c, v);
      if n == None then v.Panel? && AllFit(c, widgets[1..])
      else
        var (a, b) := Place(c, v.side, n.value);
        Fits(c, v.side, n.value) && (v.Panel? ==> AllFit(a, v.parts)) && AllFit(b, widgets[1..])
  }

  /**
   A screen of 720 by 576: a title of ten percent at the top, a panel of 200
   pixels at the left with a line at its bottom, half of what is left at the
   right, a panel without a height, and the rest.
   */
  lemma KnownLayout()
    ensures Pieces(Rect(0, 0, 720, 576),
                   [Plain(Top, Star, Sum(Zero, true, 10)),
                    Panel(Left, Sum(Zero, false, 200), Star, [Plain(Bottom, Star, Sum(Extent, false, -500))]),
                    Plain(Right, Sum(Half, false, 0), Star),
                    Panel(Top, Sum(Zero, false, 8), Star, []),
                    Plain(Fill, Star, Star)])
            == Some([Rect(0, 0, 720, 57), Rect(0, 557, 200, 19), Rect(0, 57, 200, 500),
                     Rect(460, 57, 260, 519), Rect(200, 57, 260, 519), Rect(200, 57, 0, 0)])
  {
    var line := Plain(Bottom, Star, Sum(Extent, false, -500));
    var w0 := Plain(Top, Star, Sum(Zero, true, 10));
    var w1 := Panel(Left, Sum(Zero, false, 200), Star, [line]);
    var w2 := Plain(Right, Sum(Half, false, 0), Star);
    var w3 := Panel(Top, Sum(Zero, false, 8), Star, []);
    var w4 := Plain(Fill, Star, Star);
    hide Pieces;
    NoWidgets(Rect(0, 57, 200, 500));
    NoWidgets(Rect(200, 57, 0, 0));
    assert [line] + [] == [line] && [w4] + [] == [w4] && [w3] + [w4] == [w3, w4] && [w2] + [w3, w4] == [w2, w3, w4];
    assert [w1] + [w2, w3, w4] == [w1, w2, w3, w4] && [w0] + [w1, w2, w3, w4] == [w0, w1, w2, w3, w4];
    PiecesNext(Rect(0, 57, 200, 519), line, []);
    IsCutInto(Rect(0, 57, 200, 519), [line], [Rect(0, 557, 200, 19), Rect(0, 57, 200, 500)]);
    PiecesNext(Rect(200, 57, 260, 519), w4, []);
    IsCutInto(Rect(200, 57, 260, 519), [w4], [Rect(200, 57, 260, 519), Rect(200, 57, 0, 0)]);
    PiecesNext(Rect(200, 57, 260, 519), w3, [w4]);
    PiecesNext(Rect(200, 57, 520, 519), w2, [w3, w4]);
    IsCutInto(Rect(200, 57, 520, 519), [w2, w3, w4], [Rect(460, 57, 260, 519), Rect(200, 57, 260, 519), Rect(200, 57, 0, 0)]);
    PiecesNext(Rect(0, 57, 720, 519), w1, [w2, w3, w4]);
    IsCutInto(Rect(0, 57, 720, 519), [w1, w2, w3, w4],
              [Rect(0, 557, 200, 19), Rect(0, 57, 200, 500),
               Rect(460, 57, 260, 519), Rect(200, 57, 260, 519), Rect(200, 57, 0, 0)]);
    PiecesNext(Rect(0, 0, 720, 576), w0, [w1, w2, w3, w4]);
    IsCutInto(Rect(0, 0, 720, 576), [w0, w1, w2, w3, w4],
              [Rect(0, 0, 720, 57), Rect(0, 557, 200, 19), Rect(0, 57, 200, 500),
               Rect(460, 57, 260, 519), Rect(200, 57, 260, 519), Rect(200, 57, 0, 0)]);
  }

  lemma IsCutInto(c: Rect, widgets: seq<Widget>, pieces: seq<Rect>)
    requires var r := Pieces(c, widgets);
             r.Some? && |r.value| == |pieces| && forall i :: 0 <= i < |pieces| ==> r.value[i] == pieces[i]
    ensures Pieces(c, widgets) == Some(pieces)
  {
    hide Pieces;
    assert Pieces(c, widgets).value == pieces;
  }

  lemma NoWidgets(c: Rect)
    ensures Pieces(c, []) == Some([c])
  {
  }

  lemma PiecesNext(c: Rect, v: Widget, rest: seq<Widget>)
    ensures var n := Asked(c, v);
            Pieces(c, [v] + rest) ==
            if n == None then if v.Panel? then Pieces(c, rest) else None
            else
              var (a, b) := Place(c, v.side, n.value);
              var inner, outer := if v.Panel? then Pieces(a, v.parts) else Some([a]), Pieces(b, rest);
              if inner == None || outer == None then None else Some(inner.value + outer.value)
  {
    assert ([v] + rest)[1..] == rest;
  }

  function Cover(s: seq<Rect>, px: int, py: int): nat {
    if s == [] then 0 else Hits(s[0], px, py) + Cover(s[1..], px, py)
  }

  function Areas(s: seq<Rect>): int {
    if s == [] then 0 else Area(s[0]) + Areas(s[1..])
  }

  lemma {:induction false} CoverAppend(a: seq<Rect>, b: seq<Rect>, px: int, py: int)
    ensures Cover(a + b, px, py) == Cover(a, px, py) + Cover(b, px, py)
    ensures Areas(a + b) == Areas(a) + Areas(b)
    decreases |a|
  {
    if a == [] {
      assert a + b == b;
    } else {
      assert (a + b)[1..] == a[1..] + b;
      CoverAppend(a[1..], b, px, py);
    }
  }

  /** However widgets and panels are nested, each pixel of the context is in exactly one piece, and no other pixel in any. */
  lemma {:induction false} PiecesTile(c: Rect, widgets: seq<Widget>, px: int, py: int)
    requires Proper(c) && AllFit(c, widgets)
    ensures var r := Pieces(c, widgets);
            r.Some? && Cover(r.value, px, py) == Hits(c, px, py) && Areas(r.value) == Area(c)
    decreases widgets
  {
    hide Hits, Area, Asked;
    if widgets != [] {
      var v := widgets[0];
      var n := Asked(c, v);
      if n == None {
        PiecesTile(c, widgets[1..], px, py);
      } else {
        var (a, b) := Place(c, v.side, n.value);
        PlaceSplits(c, v.side, n.value);
        PiecesTile(b, widgets[1..], px, py);
        if v.Panel? {
          PiecesTile(a, v.parts, px, py);
          CoverAppend(Pieces(a, v.parts).value, Pieces(b, widgets[1..]).value, px, py);
        } else {
          CoverAppend([a], Pieces(b, widgets[1..]).value, px, py);
        }
      }
    }
  }

  lemma {:induction false} CoverAt(s: seq<Rect>, i: nat, px: int, py: int)
    requires i < |s|
    ensures Cover(s, px, py) >= Hits(s[i], px, py)
    decreases |s|
  {
    hide Hits;
    if i > 0 {
      CoverAt(s[1..], i - 1, px, py);
    }
  }

  lemma {:induction false} CoverAtTwo(s: seq<Rect>, i: nat, j: nat, px: int, py: int)
    requires i < j < |s|
    ensures Cover(s, px, py) >= Hits(s[i], px, py) + Hits(s[j], px, py)
    decreases |s|
  {
    hide Hits;
    if i > 0 {
      CoverAtTwo(s[1..], i - 1, j - 1, px, py);
    } else {
      CoverAt(s[1..], j - 1, px, py);
    }
  }

  /** Pieces do not overlap, and lie inside the context. */
  lemma PiecesAreDisjoint(c: Rect, widgets: seq<Widget>, i: nat, j: nat, px: int, py: int)
    requires Proper(c) && AllFit(c, widgets)
    requires Pieces(c, widgets).Some? ==> i < |Pieces(c, widgets).value| && Inside(Pieces(c, widgets).value[i], px, py)
    ensures Pieces(c, widgets).Some? && Inside(c, px, py)
    ensures i < j < |Pieces(c, widgets).value| ==> !Inside(Pieces(c, widgets).value[j], px, py)
  {
    PiecesTile(c, widgets, px, py);
    var s := Pieces(c, widgets).value;
    CoverAt(s, i, px, py);
    if i < j < |s| {
      CoverAtTwo(s, i, j, px, py);
    }
  }

  predicate IsPercentage(s: Coord) {
    s.Sum? && s.base == Zero && s.percent && s.n <= 100
  }

  /** Every extent is a percentage of at most 100. */
  predicate AllPercentages(widgets: seq<Widget>)
    decreases widgets
  {
    widgets == [] ||
    (var v := widgets[0];
     && IsPercentage(v.w) && IsPercentage(v.h)
     && (v.Panel? ==> AllPercentages(v.parts)) && AllPercentages(widgets[1..]))
  }

  /** Percentages always fit, at every depth. */
  lemma {:induction false} PercentagesFit(c: Rect, widgets: seq<Widget>)
    requires Proper(c) && AllPercentages(widgets)
    ensures AllFit(c, widgets)
    decreases widgets
  {
    hide ParseCoordinate;
    if widgets != [] {
      var v := widgets[0];
      PercentageFits(c.w, v.w.n);
      PercentageFits(c.h, v.h.n);
      IsSum(v.w, c.w);
      IsSum(v.h, c.h);
      var n := Asked(c, v).value;
      PlaceSplits(c, v.side, n);
      if v.Panel? {
        PercentagesFit(Place(c, v.side, n).0, v.parts);
      }
      PercentagesFit(Place(c, v.side, n).1, widgets[1..]);
    }
  }

  lemma IsSum(s: Coord, e: int)
    requires IsPercentage(s)
    ensures s == Sum(Zero, true, s.n) && ParseCoordinate(s, e, 0).Some?
  {
  }

  // -- as the program does it

  /** A skin context: the rectangle that is still free. */
  class SkinContext {
    var x: int
    var y: int
    var w: int
    var h: int

    constructor (r: Rect)
      ensures Free() == r
    {
      x, y, w, h := r.x, r.y, r.w, r.h;
    }

    function Free(): Rect
      reads this
    {
      Rect(x, y, w, h)
    }

    /** `parse` for a docked widget; None stands for the exception that "*" raises. */
    method Parse(v: Widget) returns (r: Option<Rect>)
      modifies this
      ensures var n := Asked(old(Free()), v);
              if n == None then r == None && Free() == old(Free())
              else r == Some(Place(old(Free()), v.side, n.value).0) && Free() == Place(old(Free()), v.side, n.value).1
    {
      if v.side == Fill {
        r := Some(Rect(x, y, w, h));
        w := 0;
        h := 0;
        return;
      }
      var pw, ph := ParseCoordinate(v.w, w, 0), ParseCoordinate(v.h, h, 0);
      if v.side == Bottom {
        if ph == None { return None; }
        r := Some(Rect(x, y + h - ph.value, w, ph.value));
        h := h - ph.value;
      } else if v.side == Top {
        if ph == None { return None; }
        r := Some(Rect(x, y, w, ph.value));
        h := h - ph.value;
        y := y + ph.value;
      } else if v.side == Left {
        if pw == None { return None; }
        r := Some(Rect(x, y, pw.value, h));
        x := x + pw.value;
        w := w - pw.value;
      } else {
        if pw == None { return None; }
        r := Some(Rect(x + w - pw.value, y, pw.value, h));
        w := w - pw.value;
      }
    }

    /**
     `process_screen`: every widget is parsed in turn, and a panel's rectangle
     is the context of its own parts.
     */
    method ProcessScreen(widgets: seq<Widget>) returns (r: Option<seq<Rect>>)
      modifies this
      ensures r == Pieces(old(Free()), widgets)
      decreases widgets, 0
    {
      var rects := [];
      assert widgets[0..] == widgets;
      ghost var all := Pieces(Free(), widgets);
      assert all.Some? ==> rects + all.value == all.value;
      for i := 0 to |widgets|
        invariant var rest := Pieces(Free(), widgets[i..]);
                  Pieces(old(Free()), widgets) == if rest == None then None else Some(rects + rest.value)
      {
        ghost var before := rects;
        assert widgets[i..][0] == widgets[i] && widgets[i..][1..] == widgets[i + 1..];
        var v := Parse(widgets[i]);
        if v == None {
          if !widgets[i].Panel? { return None; }
        } else {
          var inner := Some([v.value]);
          if widgets[i].Panel? {
            inner := ProcessPanel(v.value, widgets[i].parts);
          }
          if inner == None { return None; }
          rects := rects + inner.value;
          ghost var rest := Pieces(Free(), widgets[i + 1..]);
          assert rest.Some? ==> before + (inner.value + rest.value) == rects + rest.value;
        }
      }
      return Some(rects + [Free()]);
    }

    /** `process_panel`: a context of its own for the panel's widgets. */
    static method ProcessPanel(area: Rect, parts: seq<Widget>) returns (r: Option<seq<Rect>>)
      ensures r == Pieces(area, parts)
      decreases parts, 1
    {
      var inner := new SkinContext(area);
      r := inner.ProcessScreen(parts);
    }
  }
}
