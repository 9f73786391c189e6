/**
 * The interactive segmentation viewer (vision/contour_gui.py, class
 * TkinterSegmentationViewer).
 *
 * Each mask is a polygon given as a flat list of coordinates
 * `[x0, y0, x1, y1, ...]`. The viewer finds the mask under the pointer by ray
 * casting, searches masks by name (falling back to a language model whose reply
 * is an input here), and redraws every mask with a style that depends on whether
 * it is highlighted. Coordinates are exact reals; the Tk canvas, the listbox and
 * the description panel are left out.
 */
module MaskViewer {
  import opened Wrappers
  import opened Decimal

  // ---------------------------------------------------------------------------
  // Data model
  // ---------------------------------------------------------------------------

  /** One entry of `masks_data`, keyed by `id`. */
  datatype Mask = Mask(id: int, name: string, description: string, contour: seq<real>, color: string)

  /** The canvas options of a drawn mask. */
  datatype Style = Style(outline: string, fill: string, stipple: string, width: int)

  /** A polygon drawn on the canvas, as `create_polygon` is given it. */
  datatype Polygon = Polygon(points: seq<real>, style: Style, tag: string)

  /** What a mask's `.npy` file yields: no file, a file in which no contour is
      found, or the longest contour, already scaled to the displayed image. */
  datatype MaskFile = NoContour | Contour(points: seq<real>)

  /** `masks_data` is a dictionary: no id occurs twice. */
  predicate DistinctIds(masks: seq<Mask>)
  {
    forall i, j :: 0 <= i < j < |masks| ==> masks[i].id != masks[j].id
  }

  function MinReal(a: real, b: real): real { if a <= b then a else b }
  function MaxReal(a: real, b: real): real { if a >= b then a else b }

  // ---------------------------------------------------------------------------
  // Point in polygon
  // ---------------------------------------------------------------------------

  /** The ray-casting test of one edge from (p1x, p1y) to (p2x, p2y). The
      intersection abscissa is only needed when the first three tests pass, and
      they cannot pass on a horizontal edge, so the division is always defined. */
  predicate Crosses(x: real, y: real, p1x: real, p1y: real, p2x: real, p2y: real)
  {
    && y > MinReal(p1y, p2y)
    && y <= MaxReal(p1y, p2y)
    && x <= MaxReal(p1x, p2x)
    && (p1x == p2x || x <= XIntersection(y, p1x, p1y, p2x, p2y))
  }

  /** Where the horizontal line at height `y` meets the line through the edge. */
  function XIntersection(y: real, p1x: real, p1y: real, p2x: real, p2y: real): real
    requires p1y != p2y
  {
    (y - p1y) * (p2x - p1x) / (p2y - p1y) + p1x
  }

  /** Edge `j` (1 <= j <= n, n the number of vertices) runs from vertex `j - 1`
      to vertex `j % n`; edge n is the closing edge back to vertex 0. */
  predicate EdgeCrosses(x: real, y: real, pts: seq<real>, j: int)
    requires 1 <= j <= |pts| / 2
  {
    var n := |pts| / 2;
    EdgeEnds(j, n);
    Crosses(x, y, pts[(j - 1) * 2], pts[(j - 1) * 2 + 1], pts[(j % n) * 2], pts[(j % n) * 2 + 1])
  }

  /** Edge `j` ends at vertex `j` unless it is the closing edge, which ends at
      vertex 0. */
  lemma EdgeEnds(j: int, n: int)
    requires 1 <= j <= n
    ensures j % n == (if j == n then 0 else j)
  {
  }

  /** How many of the edges 1..k pass the crossing test. */
  function Crossings(x: real, y: real, pts: seq<real>, k: int): nat
    requires 0 <= k <= |pts| / 2
  {
    if k == 0 then 0 else Crossings(x, y, pts, k - 1) + (if EdgeCrosses(x, y, pts, k) then 1 else 0)
  }

  /** The point is inside when the polygon has at least three vertices and an
      odd number of its edges pass the crossing test. */
  predicate InPolygon(x: real, y: real, pts: seq<real>)
  {
    |pts| >= 6 && Crossings(x, y, pts, |pts| / 2) % 2 == 1
  }

  /** `point_in_polygon`: walks every edge once, toggling on each crossing. */
  method PointInPolygon(x: real, y: real, pts: seq<real>) returns (inside: bool)
    ensures inside == InPolygon(x, y, pts)
    ensures |pts| < 6 ==> !inside
  {
    if |pts| < 6 {
      return false;
    }
    var n := |pts| / 2;
    inside := false;
    var p1x, p1y := pts[0], pts[1];
    var xinters: real := 0.0;
    ghost var prev := 0;
    ghost var xintersFresh := false;
    var i := 1;
    while i < n + 1
      invariant 1 <= i <= n + 1
      invariant 0 <= prev < n && p1x == pts[prev * 2] && p1y == pts[prev * 2 + 1]
      invariant i <= n ==> prev == i - 1
      invariant inside == (Crossings(x, y, pts, i - 1) % 2 == 1)
    {
      EdgeEnds(i, n);
      var p2x, p2y := pts[(i % n) * 2], pts[(i % n) * 2 + 1];
      ghost var before := inside;
      xintersFresh := false;
      if y > MinReal(p1y, p2y) {
        if y <= MaxReal(p1y, p2y) {
          if x <= MaxReal(p1x, p2x) {
            if p1y != p2y {
              xinters := XIntersection(y, p1x, p1y, p2x, p2y);
              xintersFresh := true;
            }
            // the abscissa read below was computed for this very edge
            assert xintersFresh;
            if p1x == p2x || x <= xinters {
              inside := !inside;
            }
          }
        }
      }
      assert inside == (before != Crosses(x, y, p1x, p1y, p2x, p2y));
      assert EdgeCrosses(x, y, pts, i) == Crosses(x, y, p1x, p1y, p2x, p2y);
      p1x, p1y := p2x, p2y;
      prev := i % n;
      i := i + 1;
    }
  }

  /** Only vertex `v`'s y coordinate decides whether a point is above it. */
  predicate AboveVertex(y: real, pts: seq<real>, v: int)
    requires 0 <= v < |pts| / 2
  {
    y > pts[2 * v + 1]
  }

  /** A point above every vertex is outside: no edge reaches its height. */
  lemma {:induction false} AboveAllVerticesCrossesNothing(x: real, y: real, pts: seq<real>, k: int)
    requires 0 <= k <= |pts| / 2
    requires forall v :: 0 <= v < |pts| / 2 ==> AboveVertex(y, pts, v)
    ensures Crossings(x, y, pts, k) == 0
  {
    if k > 0 {
      AboveAllVerticesCrossesNothing(x, y, pts, k - 1);
      var n := |pts| / 2;
      assert AboveVertex(y, pts, k - 1) && AboveVertex(y, pts, k % n);
    }
  }

  /** A point to the right of every vertex is outside: the ray towards larger
      `x` starts past every edge. */
  lemma {:induction false} RightOfAllVerticesCrossesNothing(x: real, y: real, pts: seq<real>, k: int)
    requires 0 <= k <= |pts| / 2
    requires forall v :: 0 <= v < |pts| / 2 ==> RightOfVertex(x, pts, v)
    ensures Crossings(x, y, pts, k) == 0
  {
    if k > 0 {
      RightOfAllVerticesCrossesNothing(x, y, pts, k - 1);
      var n := |pts| / 2;
      assert RightOfVertex(x, pts, k - 1) && RightOfVertex(x, pts, k % n);
    }
  }

  predicate RightOfVertex(x: real, pts: seq<real>, v: int)
    requires 0 <= v < |pts| / 2
  {
    x > pts[2 * v]
  }

  /** A horizontal edge never passes the crossing test. */
  lemma HorizontalEdgeNeverCrosses(x: real, y: real, p1x: real, p2x: real, h: real)
    ensures !Crosses(x, y, p1x, h, p2x, h)
  {
  }

  /** The unit square holds its centre and not a point to its right. */
  lemma UnitSquareExample()
    ensures InPolygon(0.5, 0.5, [0.0, 0.0, 1.0, 0.0, 1.0, 1.0, 0.0, 1.0])
    ensures !InPolygon(1.5, 0.5, [0.0, 0.0, 1.0, 0.0, 1.0, 1.0, 0.0, 1.0])
  {
    var sq := [0.0, 0.0, 1.0, 0.0, 1.0, 1.0, 0.0, 1.0];
    assert !EdgeCrosses(0.5, 0.5, sq, 1);
    assert EdgeCrosses(0.5, 0.5, sq, 2);
    assert !EdgeCrosses(0.5, 0.5, sq, 3);
    assert !EdgeCrosses(0.5, 0.5, sq, 4);
    assert Crossings(0.5, 0.5, sq, 4) == 1;
    assert !EdgeCrosses(1.5, 0.5, sq, 2);
    assert !EdgeCrosses(1.5, 0.5, sq, 4);
    assert Crossings(1.5, 0.5, sq, 4) == 0;
  }

  // ---------------------------------------------------------------------------
  // Finding the mask under a point
  // ---------------------------------------------------------------------------

  /** The id of the first mask, in dictionary order, whose polygon holds the
      point. */
  function MaskAt(masks: seq<Mask>, x: real, y: real): Option<int>
  {
    if masks == [] then None
    else if InPolygon(x, y, masks[0].contour) then Some(masks[0].id)
    else MaskAt(masks[1..], x, y)
  }

  /** `MaskAt` finds a hit exactly when some mask holds the point, and the hit
      is the first such mask. */
  lemma {:induction false} MaskAtIsFirstHit(masks: seq<Mask>, x: real, y: real)
    ensures MaskAt(masks, x, y).None? <==> forall i :: 0 <= i < |masks| ==> !InPolygon(x, y, masks[i].contour)
    ensures MaskAt(masks, x, y).Some? ==>
              exists i :: 0 <= i < |masks| && masks[i].id == MaskAt(masks, x, y).value
                          && InPolygon(x, y, masks[i].contour)
                          && forall j :: 0 <= j < i ==> !InPolygon(x, y, masks[j].contour)
  {
    if masks != [] && !InPolygon(x, y, masks[0].contour) {
      var rest := masks[1..];
      MaskAtIsFirstHit(rest, x, y);
      assert forall i :: 1 <= i < |masks| ==> masks[i] == rest[i - 1];
      if MaskAt(rest, x, y).Some? {
        var i :| 0 <= i < |rest| && rest[i].id == MaskAt(rest, x, y).value
                 && InPolygon(x, y, rest[i].contour)
                 && forall j :: 0 <= j < i ==> !InPolygon(x, y, rest[j].contour);
        assert masks[i + 1] == rest[i];
      }
    }
  }

  /** `find_mask_at_point`: tests the masks in order and stops at the first
      hit. */
  method FindMaskAtPoint(masks: seq<Mask>, x: real, y: real) returns (r: Option<int>)
    ensures r == MaskAt(masks, x, y)
  {
    var i := 0;
    while i < |masks|
      invariant 0 <= i <= |masks|
      invariant MaskAt(masks, x, y) == MaskAt(masks[i..], x, y)
    {
      assert masks[i..][1..] == masks[i + 1..];
      var hit := PointInPolygon(x, y, masks[i].contour);
      if hit {
        return Some(masks[i].id);
      }
      i := i + 1;
    }
    return None;
  }

  // ---------------------------------------------------------------------------
  // Searching by name
  // ---------------------------------------------------------------------------

  /** `str.lower` on ASCII letters. */
  function LowerChar(c: char): char
  {
    if 'A' <= c <= 'Z' then (c as int - 'A' as int + 'a' as int) as char else c
  }

  function Lower(s: string): (r: string)
    ensures |r| == |s| && forall i :: 0 <= i < |s| ==> r[i] == LowerChar(s[i])
  {
    seq(|s|, i requires 0 <= i < |s| => LowerChar(s[i]))
  }

  /** The characters `str.strip` removes: those for which `str.isspace` holds,
      the white-space and separator characters of the Unicode database. */
  predicate IsSpace(c: char)
  {
    || '\t' <= c <= '\r'                   // tab, line feed, vertical tab, form feed, return
    || '\U{001C}' <= c <= ' '               // file, group, record and unit separators, space
    || c == '\U{0085}' || c == '\U{00A0}' || c == '\U{1680}'
    || '\U{2000}' <= c <= '\U{200A}'
    || c == '\U{2028}' || c == '\U{2029}' || c == '\U{202F}' || c == '\U{205F}' || c == '\U{3000}'
  }

  /** `s.strip()` is empty. */
  predicate IsBlank(s: string)
  {
    forall i :: 0 <= i < |s| ==> IsSpace(s[i])
  }

  /** `s.strip()`: leading and trailing spaces removed. */
  function Strip(s: string): (r: string)
    ensures |r| <= |s|
    ensures r == [] <==> IsBlank(s)
    ensures r != [] ==> !IsSpace(r[0]) && !IsSpace(r[|r| - 1])
  {
    if s == [] then []
    else if IsSpace(s[0]) then Strip(s[1..])
    else if IsSpace(s[|s| - 1]) then Strip(s[..|s| - 1])
    else s
  }

  /** What `strip` removes is white space at the two ends only: `s` is the
      result between a blank prefix and a blank suffix. */
  lemma {:induction false} StripIsTrimmedSlice(s: string)
    ensures exists pre, post :: s == pre + Strip(s) + post && IsBlank(pre) && IsBlank(post)
  {
    if s == [] {
      assert s == [] + Strip(s) + [];
    } else if IsSpace(s[0]) {
      StripIsTrimmedSlice(s[1..]);
      var pre, post :| s[1..] == pre + Strip(s[1..]) + post && IsBlank(pre) && IsBlank(post);
      TrimFront(s, pre, post);
    } else if IsSpace(s[|s| - 1]) {
      var t := s[..|s| - 1];
      StripIsTrimmedSlice(t);
      var pre, post :| t == pre + Strip(t) + post && IsBlank(pre) && IsBlank(post);
      TrimBack(s, pre, post);
    } else {
      assert Strip(s) == s && IsBlank([]);
      assert s == [] + Strip(s) + [];
    }
  }

  lemma TrimFront(s: string, pre: string, post: string)
    requires s != [] && IsSpace(s[0])
    requires s[1..] == pre + Strip(s[1..]) + post && IsBlank(pre) && IsBlank(post)
    ensures s == ([s[0]] + pre) + Strip(s) + post && IsBlank([s[0]] + pre)
  {
    BlankAppend([s[0]], pre);
    StripSpaceFront(s);
    Regroup([s[0]], s[1..], pre, Strip(s[1..]), post);
  }

  lemma TrimBack(s: string, pre: string, post: string)
    requires s != [] && !IsSpace(s[0]) && IsSpace(s[|s| - 1])
    requires s[..|s| - 1] == pre + Strip(s[..|s| - 1]) + post && IsBlank(pre) && IsBlank(post)
    ensures s == pre + Strip(s) + (post + [s[|s| - 1]]) && IsBlank(post + [s[|s| - 1]])
  {
    var t, z := s[..|s| - 1], [s[|s| - 1]];
    BlankAppend(post, z);
    StripSpaceBack(s);
    LastSplit(s);
    RegroupBack(t, z, pre, Strip(t), post);
  }

  lemma LastSplit(s: string)
    requires s != []
    ensures s == s[..|s| - 1] + [s[|s| - 1]]
  {
  }

  lemma StripSpaceFront(s: string)
    requires s != [] && IsSpace(s[0])
    ensures Strip(s) == Strip(s[1..])
  {
  }

  lemma StripSpaceBack(s: string)
    requires s != [] && !IsSpace(s[0]) && IsSpace(s[|s| - 1])
    ensures Strip(s) == Strip(s[..|s| - 1])
  {
  }

  lemma Regroup(x: string, y: string, a: string, b: string, c: string)
    requires y == a + b + c
    ensures x + y == (x + a) + b + c
  {
  }

  lemma RegroupBack(y: string, z: string, a: string, b: string, c: string)
    requires y == a + b + c
    ensures y + z == a + b + (c + z)
  {
  }

  lemma BlankAppend(x: string, y: string)
    requires IsBlank(x) && IsBlank(y)
    ensures IsBlank(x + y)
  {
    forall i | 0 <= i < |x + y| ensures IsSpace((x + y)[i]) {
      if i >= |x| {
        assert (x + y)[i] == y[i - |x|];
      }
    }
  }

  /** `t` occurs in `s` at position `i`. */
  predicate OccursAt(t: string, s: string, i: int)
  {
    0 <= i && i + |t| <= |s| && s[i..i + |t|] == t
  }

  /** Python's `t in s` on strings. */
  function IsSubstring(t: string, s: string): bool
  {
    t <= s || (s != [] && IsSubstring(t, s[1..]))
  }

  /** `IsSubstring` holds exactly when `t` occurs somewhere in `s`. */
  lemma {:induction false} IsSubstringOccurs(t: string, s: string)
    ensures IsSubstring(t, s) <==> exists i :: OccursAt(t, s, i)
  {
    if t <= s {
      assert OccursAt(t, s, 0);
    } else if s == [] {
      assert forall i :: !OccursAt(t, s, i);
    } else {
      IsSubstringOccurs(t, s[1..]);
      forall i | OccursAt(t, s[1..], i)
        ensures OccursAt(t, s, i + 1)
      {
        assert s[1..][i..i + |t|] == s[i + 1..i + 1 + |t|];
      }
      forall i | OccursAt(t, s, i)
        ensures OccursAt(t, s[1..], i - 1)
      {
        assert i != 0;
        assert s[1..][i - 1..i - 1 + |t|] == s[i..i + |t|];
      }
    }
  }

  /** The mask's name contains the search term, both lower-cased. */
  predicate NameMatches(m: Mask, term: string)
  {
    IsSubstring(Lower(term), Lower(m.name))
  }

  /** The ids of the masks whose name matches, in dictionary order. */
  function DirectMatches(masks: seq<Mask>, term: string): seq<int>
  {
    if masks == [] then []
    else
      var init := masks[..|masks| - 1];
      var m := masks[|masks| - 1];
      DirectMatches(init, term) + (if NameMatches(m, term) then [m.id] else [])
  }

  /** The direct matches are exactly the ids of the matching masks. */
  lemma {:induction false} DirectMatchesMembers(masks: seq<Mask>, term: string, id: int)
    ensures id in DirectMatches(masks, term) <==>
              exists i :: 0 <= i < |masks| && masks[i].id == id && NameMatches(masks[i], term)
  {
    if masks != [] {
      var init := masks[..|masks| - 1];
      DirectMatchesMembers(init, term, id);
      if id in DirectMatches(init, term) {
        var i :| 0 <= i < |init| && init[i].id == id && NameMatches(init[i], term);
        assert masks[i] == init[i];
      }
      if exists i :: 0 <= i < |masks| && masks[i].id == id && NameMatches(masks[i], term) {
        var i :| 0 <= i < |masks| && masks[i].id == id && NameMatches(masks[i], term);
        if i < |init| {
          assert init[i] == masks[i];
        }
      }
    }
  }

  /** `s.split(sep)`: the pieces between the separators, at least one. */
  function Split(s: string, sep: char): (parts: seq<string>)
    ensures |parts| >= 1
    ensures forall i :: 0 <= i < |parts| ==> sep !in parts[i]
  {
    if s == [] then [""]
    else
      var rest := Split(s[1..], sep);
      if s[0] == sep then [""] + rest
      else [[s[0]] + rest[0]] + rest[1..]
  }

  /** `sep.join(parts)`. */
  function Join(parts: seq<string>, sep: char): string
    requires |parts| >= 1
  {
    if |parts| == 1 then parts[0] else parts[0] + [sep] + Join(parts[1..], sep)
  }

  /** Splitting loses nothing: joining the pieces gives the string back. */
  lemma {:induction false} JoinSplit(s: string, sep: char)
    ensures Join(Split(s, sep), sep) == s
  {
    if s != [] {
      var rest := Split(s[1..], sep);
      JoinSplit(s[1..], sep);
      if s[0] == sep {
        var parts := [""] + rest;
        assert parts[1..] == rest;
        calc {
          Join(parts, sep);
          "" + [sep] + Join(rest, sep);
          [sep] + s[1..];
          s;
        }
      } else {
        var parts := [[s[0]] + rest[0]] + rest[1..];
        if |rest| == 1 {
          assert Join(parts, sep) == [s[0]] + rest[0] == [s[0]] + s[1..];
        } else {
          assert parts[1..] == rest[1..];
          calc {
            Join(parts, sep);
            ([s[0]] + rest[0]) + [sep] + Join(rest[1..], sep);
            [s[0]] + (rest[0] + [sep] + Join(rest[1..], sep));
            [s[0]] + Join(rest, sep);
          }
        }
        assert [s[0]] + s[1..] == s;
      }
    }
  }

  /** Pieces free of the separator are what splitting their join gives back. */
  lemma {:induction false} SplitJoin(parts: seq<string>, sep: char)
    requires |parts| >= 1
    requires forall i :: 0 <= i < |parts| ==> sep !in parts[i]
    ensures Split(Join(parts, sep), sep) == parts
  {
    if |parts| == 1 {
      SplitNoSeparator(parts[0], sep);
    } else {
      SplitJoin(parts[1..], sep);
      SplitPrefix(parts[0], Join(parts[1..], sep), sep);
      assert [parts[0]] + parts[1..] == parts;
    }
  }

  lemma {:induction false} SplitNoSeparator(s: string, sep: char)
    requires sep !in s
    ensures Split(s, sep) == [s]
  {
    if s != [] {
      assert sep !in s[1..] by {
        assert forall c :: c in s[1..] ==> c in s;
      }
      SplitNoSeparator(s[1..], sep);
      assert [s[0]] + s[1..] == s;
    }
  }

  lemma {:induction false} SplitPrefix(a: string, b: string, sep: char)
    requires sep !in a
    ensures Split(a + [sep] + b, sep) == [a] + Split(b, sep)
  {
    if a == [] {
      assert a + [sep] + b == [sep] + b;
      assert ([sep] + b)[1..] == b;
    } else {
      assert (a + [sep] + b)[1..] == a[1..] + [sep] + b;
      SplitPrefix(a[1..], b, sep);
      assert [a[0]] + a[1..] == a;
    }
  }

  /** `int(s)` on a stripped string: an optional sign and ASCII digits. */
  function ParseInt(s: string): Option<int>
  {
    if s == [] then None
    else if s[0] == '-' || s[0] == '+' then
      if s[1..] != [] && AllDigits(s[1..]) then
        var v: int := DigitsValue(s[1..]);
        Some(if s[0] == '-' then -v else v)
      else None
    else if AllDigits(s) then Some(DigitsValue(s))
    else None
  }

  /** `int` reads back what `str` writes. */
  lemma ParseIntShow(n: int)
    ensures ParseInt(IntToString(n)) == Some(n)
  {
    if n < 0 {
      assert IntToString(n)[1..] == NatToString(-n);
      NatToStringValue(-n);
    } else {
      NatToStringValue(n);
    }
  }

  /** `[int(num.strip()) for num in parts]`: `None` when any piece fails. */
  function ParseAll(parts: seq<string>): (r: Option<seq<int>>)
    ensures r.Some? ==> |r.value| == |parts|
    ensures r.Some? <==> forall i :: 0 <= i < |parts| ==> ParseInt(Strip(parts[i])).Some?
    ensures r.Some? ==> forall i :: 0 <= i < |parts| ==> r.value[i] == ParseInt(Strip(parts[i])).value
  {
    if parts == [] then Some([])
    else
      match ParseInt(Strip(parts[0]))
      case None => None
      case Some(n) =>
        match ParseAll(parts[1..])
        case None => None
        case Some(ns) => Some([n] + ns)
  }

  /** The ids a language-model reply names. `reply` is `None` when the call
      raises; "none", and any reply a piece of which is not a number, give []. */
  function SemanticMatches(reply: Option<string>): seq<int>
  {
    match reply
    case None => []
    case Some(text) =>
      if text == "none" then []
      else
        match ParseAll(Split(text, ','))
        case None => []
        case Some(ids) => ids
  }

  /** A reply other than "none" with one piece that is not a number names no
      mask: the comprehension raises and the `except` keeps the empty list. */
  lemma BadPieceGivesNoMatches(text: string, k: int)
    requires text != "none"
    requires 0 <= k < |Split(text, ',')| && ParseInt(Strip(Split(text, ',')[k])).None?
    ensures SemanticMatches(Some(text)) == []
  {
  }

  /** The result of `search_masks_by_name`. */
  function SearchResult(masks: seq<Mask>, term: string, reply: Option<string>): seq<int>
  {
    if IsBlank(term) then []
    else if DirectMatches(masks, term) != [] then DirectMatches(masks, term)
    else SemanticMatches(reply)
  }

  /** `search_masks_by_name`: the direct matches, or, when there are none, the
      ids the model's reply names. */
  method SearchMasksByName(masks: seq<Mask>, term: string, reply: Option<string>) returns (r: seq<int>)
    ensures r == SearchResult(masks, term, reply)
  {
    if Strip(term) == [] {
      return [];
    }
    r := [];
    var termLower := Lower(term);
    var i := 0;
    while i < |masks|
      invariant 0 <= i <= |masks|
      invariant r == DirectMatches(masks[..i], term)
    {
      assert masks[..i + 1][..i] == masks[..i];
      var nameLower := Lower(masks[i].name);
      if IsSubstring(termLower, nameLower) {
        r := r + [masks[i].id];
      }
      i := i + 1;
    }
    assert masks[..|masks|] == masks;
    if r == [] {
      r := SemanticMatches(reply);
    }
  }

  /** The ids rendered by the model as "1,4" are read back as they were. */
  lemma ReplyRoundTrip(ids: seq<int>)
    requires |ids| >= 1
    ensures SemanticMatches(Some(Join(ShowIds(ids), ','))) == ids
  {
    var parts := ShowIds(ids);
    forall i | 0 <= i < |parts| ensures ',' !in parts[i] {
      ShowHasNoComma(ids[i]);
    }
    SplitJoin(parts, ',');
    ParseShown(ids);
  }

  function ShowIds(ids: seq<int>): (parts: seq<string>)
    ensures |parts| == |ids|
    ensures forall i :: 0 <= i < |ids| ==> parts[i] == IntToString(ids[i])
  {
    if ids == [] then [] else [IntToString(ids[0])] + ShowIds(ids[1..])
  }

  lemma ShowHasNoComma(n: int)
    ensures ',' !in IntToString(n)
  {
    var s := IntToString(n);
    if n >= 0 {
      assert AllDigits(s);
    } else {
      assert AllDigits(s[1..]);
      assert forall i :: 1 <= i < |s| ==> s[i] == s[1..][i - 1];
    }
  }

  lemma {:induction false} ParseShown(ids: seq<int>)
    ensures ParseAll(ShowIds(ids)) == Some(ids)
  {
    if ids != [] {
      ParseShown(ids[1..]);
      ParseIntShow(ids[0]);
      StripShown(ids[0]);
      assert ShowIds(ids)[1..] == ShowIds(ids[1..]);
      assert [ids[0]] + ids[1..] == ids;
    }
  }

  /** Decimal text has no spaces to strip. */
  lemma StripShown(n: int)
    ensures Strip(IntToString(n)) == IntToString(n)
  {
    var s := IntToString(n);
    if n < 0 {
      assert s[0] == '-';
      assert s[|s| - 1] == NatToString(-n)[|NatToString(-n)| - 1];
      assert IsDigit(s[|s| - 1]);
    } else {
      assert IsDigit(s[0]) && IsDigit(s[|s| - 1]);
    }
  }

  // ---------------------------------------------------------------------------
  // Highlighting and drawing
  // ---------------------------------------------------------------------------

  /** The style branch of `draw_all_masks`. */
  function MaskStyle(color: string, highlightMode: bool, isHighlighted: bool): (s: Style)
    ensures s.outline == color
    ensures isHighlighted ==> s.width == 3 && s.stipple == "" && s.fill == color
    ensures !isHighlighted ==> s.fill == "" && s.width < 3
    ensures !isHighlighted && highlightMode ==> s.stipple == "gray12" && s.width == 1
    ensures !isHighlighted && !highlightMode ==> s.stipple == "gray25" && s.width == 2
  {
    if highlightMode && !isHighlighted then Style(color, "", "gray12", 1)
    else if isHighlighted then Style(color, color, "", 3)
    else Style(color, "", "gray25", 2)
  }

  /** The canvas item drawn for a mask. */
  function DrawnPolygon(m: Mask, highlightMode: bool, highlighted: seq<int>): Polygon
  {
    Polygon(m.contour, MaskStyle(m.color, highlightMode, m.id in highlighted), "mask_" + IntToString(m.id))
  }

  /** A mask with at least three vertices is drawn. */
  predicate Drawable(m: Mask)
  {
    |m.contour| >= 6
  }

  /** `polygon_items` after `draw_all_masks` has walked `masks`. */
  function DrawnItems(masks: seq<Mask>, highlightMode: bool, highlighted: seq<int>): map<int, Polygon>
  {
    if masks == [] then map[]
    else
      var init := masks[..|masks| - 1];
      var m := masks[|masks| - 1];
      var items := DrawnItems(init, highlightMode, highlighted);
      if Drawable(m) then items[m.id := DrawnPolygon(m, highlightMode, highlighted)] else items
  }

  /** Exactly the drawable masks are drawn, each with its own style. */
  lemma {:induction false} DrawnItemsContents(masks: seq<Mask>, highlightMode: bool, highlighted: seq<int>, i: int)
    requires DistinctIds(masks) && 0 <= i < |masks|
    ensures masks[i].id in DrawnItems(masks, highlightMode, highlighted) <==> Drawable(masks[i])
    ensures Drawable(masks[i]) ==>
              DrawnItems(masks, highlightMode, highlighted)[masks[i].id] == DrawnPolygon(masks[i], highlightMode, highlighted)
  {
    var init := masks[..|masks| - 1];
    if i < |masks| - 1 {
      assert init[i] == masks[i];
      DrawnItemsContents(init, highlightMode, highlighted, i);
    } else {
      DrawnItemsNotIn(init, highlightMode, highlighted, masks[i].id);
    }
  }

  lemma {:induction false} DrawnItemsNotIn(masks: seq<Mask>, highlightMode: bool, highlighted: seq<int>, id: int)
    requires forall j :: 0 <= j < |masks| ==> masks[j].id != id
    ensures id !in DrawnItems(masks, highlightMode, highlighted)
  {
    if masks != [] {
      DrawnItemsNotIn(masks[..|masks| - 1], highlightMode, highlighted, id);
    }
  }

  /** Nothing but masks' ids is drawn. */
  lemma {:induction false} DrawnItemsKeys(masks: seq<Mask>, highlightMode: bool, highlighted: seq<int>, id: int)
    requires id in DrawnItems(masks, highlightMode, highlighted)
    ensures exists i :: 0 <= i < |masks| && masks[i].id == id && Drawable(masks[i])
  {
    var init := masks[..|masks| - 1];
    if id in DrawnItems(init, highlightMode, highlighted) {
      DrawnItemsKeys(init, highlightMode, highlighted, id);
      var i :| 0 <= i < |init| && init[i].id == id && Drawable(init[i]);
      assert masks[i] == init[i];
    }
  }

  /** Python truthiness of a mask id held in an optional slot: `None` and `0`
      are false. */
  predicate IsSet(hover: Option<int>)
  {
    hover.Some? && hover.value != 0
  }

  /** The highlight list of `perform_search`: the search results, then the
      hovered mask if there is one (a non-zero id) not already among them. */
  function HighlightList(results: seq<int>, hover: Option<int>): (r: seq<int>)
    ensures |results| <= |r| <= |results| + 1 && r[..|results|] == results
    ensures forall id :: id in r <==> id in results || (IsSet(hover) && id == hover.value)
    ensures |r| == |results| + 1 <==> IsSet(hover) && hover.value !in results
  {
    if IsSet(hover) && hover.value !in results then results + [hover.value] else results
  }

  /** The highlight list repeats no id the results do not repeat. */
  lemma HighlightListAddsNoDuplicate(results: seq<int>, hover: Option<int>)
    requires forall i, j :: 0 <= i < j < |results| ==> results[i] != results[j]
    ensures var r := HighlightList(results, hover);
            forall i, j :: 0 <= i < j < |r| ==> r[i] != r[j]
  {
  }

  /** The palette of `__init__`. */
  const Palette: seq<string> := ["#FF6B6B", "#4ECDC4", "#45B7D1", "#96CEB4", "#FFEAA7",
                                 "#DDA0DD", "#98D8C8", "#F7DC6F", "#BB8FCE", "#85C1E9", "#F8C471"]

  /** The colour of mask `i`: `colors[(i-1) % len(colors)]`; Python's `%` with a
      positive divisor is never negative, as Dafny's is. */
  function ColorOf(i: int): (c: string)
    ensures c in Palette
  {
    Palette[(i - 1) % |Palette|]
  }

  /** Colours repeat with the period of the palette. */
  lemma ColorsCycle(i: int)
    ensures ColorOf(i + |Palette|) == ColorOf(i)
  {
    assert (i + |Palette| - 1) % |Palette| == (i - 1) % |Palette|;
  }

  /** Three characters of a colour, as a number, to tell colours apart. */
  function ColorCode(c: string): int
  {
    if |c| < 4 then 0 else (c[1] as int) * 65536 + (c[2] as int) * 256 + c[3] as int
  }

  /** No colour occurs twice in the palette. */
  lemma PaletteDistinct(i: int, j: int)
    requires 0 <= i < j < |Palette|
    ensures Palette[i] != Palette[j]
  {
    var codes := [4605494, 3425603, 3421506, 3749443, 4605509, 4473921, 3749956, 4601668, 4342328, 3683651, 4601923];
    assert ColorCode(Palette[i]) == codes[i];
    assert ColorCode(Palette[j]) == codes[j];
  }

  /** Masks 1..11 get the palette in order, so no two of them share a colour. */
  lemma FirstMasksHaveDistinctColors(i: int, j: int)
    requires 1 <= i < j <= |Palette|
    ensures ColorOf(i) == Palette[i - 1]
    ensures ColorOf(i) != ColorOf(j)
  {
    SmallRemainder(i - 1, |Palette|);
    SmallRemainder(j - 1, |Palette|);
    PaletteDistinct(i - 1, j - 1);
  }

  lemma SmallRemainder(k: int, m: int)
    requires 0 <= k < m
    ensures k % m == k
  {
  }

  // ---------------------------------------------------------------------------
  // Loading masks
  // ---------------------------------------------------------------------------

  /** The file `load_mask_data` reads for mask `i`. */
  function MaskPath(artwork: string, i: int): string
  {
    "./masks/" + artwork + "/array/" + artwork + "_sam_mask_" + Format04d(i) + ".npy"
  }

  /** The entry for mask `i`: its name and description from the annotation file,
      or the defaults. */
  function MaskEntry(i: int, names: map<int, string>, descriptions: map<int, string>, points: seq<real>): Mask
  {
    Mask(i,
         if i in names then names[i] else "Mask " + IntToString(i),
         if i in descriptions then descriptions[i] else "설명이 없습니다.",
         points, ColorOf(i))
  }

  /** `masks_data` after masks 1..k have been tried: a mask is kept when its file
      yields a contour. */
  function LoadedMasks(artwork: string, names: map<int, string>, descriptions: map<int, string>,
                       files: map<string, MaskFile>, k: nat): seq<Mask>
  {
    if k == 0 then []
    else
      var masks := LoadedMasks(artwork, names, descriptions, files, k - 1);
      if HasContour(artwork, files, k) then masks + [MaskEntry(k, names, descriptions, files[MaskPath(artwork, k)].points)]
      else masks
  }

  /** Mask `id`'s file yields a contour. */
  predicate HasContour(artwork: string, files: map<string, MaskFile>, id: int)
  {
    MaskPath(artwork, id) in files && files[MaskPath(artwork, id)].Contour?
  }

  /** Some entry of `masks` has id `id`. */
  predicate Loaded(masks: seq<Mask>, id: int)
  {
    exists i :: 0 <= i < |masks| && masks[i].id == id
  }

  /** Ids in 1..k, strictly increasing. */
  predicate OrderedWithin(masks: seq<Mask>, k: int)
  {
    && (forall i :: 0 <= i < |masks| ==> 1 <= masks[i].id <= k)
    && (forall i, j :: 0 <= i < j < |masks| ==> masks[i].id < masks[j].id)
  }

  /** Every mask carries the colour of its id. */
  predicate ColouredById(masks: seq<Mask>)
  {
    forall i :: 0 <= i < |masks| ==> masks[i].color == ColorOf(masks[i].id)
  }

  lemma AppendOrdered(prev: seq<Mask>, e: Mask, k: int)
    requires k >= 1 && OrderedWithin(prev, k - 1) && e.id == k && ColouredById(prev) && e.color == ColorOf(k)
    ensures OrderedWithin(prev + [e], k) && ColouredById(prev + [e])
  {
    var masks := prev + [e];
    assert forall i :: 0 <= i < |prev| ==> masks[i] == prev[i];
    assert masks[|prev|] == e;
  }

  /** The loaded masks have ids in 1..k, in increasing order, each with its
      own colour. */
  lemma {:induction false} LoadedMasksOrdered(artwork: string, names: map<int, string>, descriptions: map<int, string>,
                                              files: map<string, MaskFile>, k: nat)
    ensures OrderedWithin(LoadedMasks(artwork, names, descriptions, files, k), k)
    ensures ColouredById(LoadedMasks(artwork, names, descriptions, files, k))
  {
    if k > 0 {
      var prev := LoadedMasks(artwork, names, descriptions, files, k - 1);
      LoadedMasksOrdered(artwork, names, descriptions, files, k - 1);
      if HasContour(artwork, files, k) {
        var e := MaskEntry(k, names, descriptions, files[MaskPath(artwork, k)].points);
        assert LoadedMasks(artwork, names, descriptions, files, k) == prev + [e];
        AppendOrdered(prev, e, k);
      }
    }
  }

  /** Mask `id` of 1..k is loaded exactly when its file yields a contour. */
  lemma {:induction false} LoadedMasksExactly(artwork: string, names: map<int, string>, descriptions: map<int, string>,
                                              files: map<string, MaskFile>, k: nat, id: int)
    requires 1 <= id <= k
    ensures Loaded(LoadedMasks(artwork, names, descriptions, files, k), id) <==> HasContour(artwork, files, id)
  {
    var prev := LoadedMasks(artwork, names, descriptions, files, k - 1);
    var masks := LoadedMasks(artwork, names, descriptions, files, k);
    LoadedMasksOrdered(artwork, names, descriptions, files, k - 1);
    if HasContour(artwork, files, k) {
      var e := MaskEntry(k, names, descriptions, files[MaskPath(artwork, k)].points);
      assert masks == prev + [e];
      LoadedAppend(prev, e, id);
    } else {
      assert masks == prev;
    }
    if id < k {
      LoadedMasksExactly(artwork, names, descriptions, files, k - 1, id);
    } else {
      assert !Loaded(prev, k);
    }
  }

  lemma LoadedAppend(prev: seq<Mask>, e: Mask, id: int)
    ensures Loaded(prev + [e], id) <==> Loaded(prev, id) || e.id == id
  {
    var masks := prev + [e];
    if Loaded(prev, id) {
      var i :| 0 <= i < |prev| && prev[i].id == id;
      assert masks[i] == prev[i];
    }
    if e.id == id {
      assert masks[|prev|] == e;
    }
  }

  /** `masks_data` is keyed by id: no id is loaded twice. */
  lemma LoadedMasksDistinct(artwork: string, names: map<int, string>, descriptions: map<int, string>,
                            files: map<string, MaskFile>, k: nat)
    ensures DistinctIds(LoadedMasks(artwork, names, descriptions, files, k))
  {
    LoadedMasksOrdered(artwork, names, descriptions, files, k);
    var masks := LoadedMasks(artwork, names, descriptions, files, k);
    assert forall i, j :: 0 <= i < j < |masks| ==> masks[i].id < masks[j].id;
  }

  // ---------------------------------------------------------------------------
  // The listbox
  // ---------------------------------------------------------------------------

  /** The listbox row that shows mask `id`, as `selection_set` computes it. */
  function RowOfMask(id: int): int { id - 1 }

  /** The mask a selected listbox row stands for, as `on_listbox_select`
      computes it. */
  function MaskOfRow(row: int): int { row + 1 }

  /** The ids listed, in row order: the ids 1..11 that have a name. */
  function ListboxIds(names: map<int, string>, k: nat): (ids: seq<int>)
    ensures |ids| <= k
    ensures forall i :: 0 <= i < |ids| ==> 1 <= ids[i] <= k
    ensures forall id :: id in ids <==> 1 <= id <= k && id in names
    ensures forall i, j :: 0 <= i < j < |ids| ==> ids[i] < ids[j]
  {
    if k == 0 then [] else ListboxIds(names, k - 1) + (if k in names then [k] else [])
  }

  /** Without the all-named premise the row arithmetic is off: with masks 1 and
      3 named, the second row shows mask 3, but selecting it picks mask 2. */
  lemma UnnamedMaskShiftsSelection()
    ensures var ids := ListboxIds(map[1 := "a", 3 := "c"], 11);
            |ids| == 2 && ids[1] == 3 && MaskOfRow(1) == 2
  {
    var names := map[1 := "a", 3 := "c"];
    assert ListboxIds(names, 3) == [1, 3];
    var n := 3;
    while n < 11
      invariant 3 <= n <= 11 && ListboxIds(names, n) == [1, 3]
    {
      n := n + 1;
    }
  }

  /** The row arithmetic matches the listbox when masks 1..k all have names: a
      selected row stands for the mask it shows, and the row `selection_set`
      picks for a mask shows that mask. */
  lemma {:induction false} ListboxRowsMatchWhenNamed(names: map<int, string>, k: nat)
    requires forall id :: 1 <= id <= k ==> id in names
    ensures var ids := ListboxIds(names, k);
            |ids| == k && forall row :: 0 <= row < k ==> ids[row] == MaskOfRow(row)
    ensures var ids := ListboxIds(names, k);
            forall id :: 1 <= id <= k ==> 0 <= RowOfMask(id) < |ids| && ids[RowOfMask(id)] == id
  {
    if k > 0 {
      ListboxRowsMatchWhenNamed(names, k - 1);
    }
  }

  // ---------------------------------------------------------------------------
  // The viewer's state
  // ---------------------------------------------------------------------------

  class SegmentationViewer {
    var masksData: seq<Mask>
    var polygonItems: map<int, Polygon>
    var currentHoverMask: Option<int>
    var currentSearchMasks: seq<int>
    var searchText: string

    ghost predicate Valid()
      reads this
    {
      DistinctIds(masksData)
    }

    constructor ()
      ensures Valid()
      ensures masksData == [] && polygonItems == map[] && currentHoverMask == None
      ensures currentSearchMasks == [] && searchText == ""
    {
      masksData := [];
      polygonItems := map[];
      currentHoverMask := None;
      currentSearchMasks := [];
      searchText := "";
    }

    /** `load_mask_data`: tries masks 1..11 in order. `files` maps each path to
        what reading it yields; a path it lacks fails to load and is skipped. */
    method LoadMaskData(artwork: string, names: map<int, string>, descriptions: map<int, string>,
                        files: map<string, MaskFile>)
      requires masksData == []
      modifies this`masksData
      ensures Valid()
      ensures masksData == LoadedMasks(artwork, names, descriptions, files, 11)
    {
      var i := 1;
      while i < 12
        invariant 1 <= i <= 12
        invariant masksData == LoadedMasks(artwork, names, descriptions, files, i - 1)
      {
        var path := "./masks/" + artwork + "/array/" + artwork + "_sam_mask_" + Format04d(i) + ".npy";
        if path in files && files[path].Contour? {
          masksData := masksData + [MaskEntry(i, names, descriptions, files[path].points)];
        }
        i := i + 1;
      }
      LoadedMasksDistinct(artwork, names, descriptions, files, 11);
    }

    /** `draw_all_masks`: clears the drawn polygons and draws every drawable mask
        again. */
    method DrawAllMasks(highlightMode: bool, highlighted: seq<int>)
      requires Valid()
      modifies this`polygonItems
      ensures polygonItems == DrawnItems(masksData, highlightMode, highlighted)
    {
      polygonItems := map[];
      var i := 0;
      while i < |masksData|
        invariant 0 <= i <= |masksData|
        invariant polygonItems == DrawnItems(masksData[..i], highlightMode, highlighted)
      {
        assert masksData[..i + 1][..i] == masksData[..i];
        var m := masksData[i];
        if |m.contour| >= 6 {
          var style := if highlightMode && !(m.id in highlighted) then Style(m.color, "", "gray12", 1)
                       else if m.id in highlighted then Style(m.color, m.color, "", 3)
                       else Style(m.color, "", "gray25", 2);
          polygonItems := polygonItems[m.id := Polygon(m.contour, style, "mask_" + IntToString(m.id))];
        }
        i := i + 1;
      }
      assert masksData[..|masksData|] == masksData;
    }

    /** `perform_search`: `input` is the search entry's text and `reply` what the
        language model answers if it is asked. */
    method PerformSearch(input: string, reply: Option<string>)
      requires Valid()
      modifies this
      ensures Valid()
      ensures masksData == old(masksData) && currentHoverMask == old(currentHoverMask)
      ensures searchText == input
      ensures currentSearchMasks == SearchResult(masksData, input, reply)
      ensures currentSearchMasks != [] ==>
                polygonItems == DrawnItems(masksData, true, HighlightList(currentSearchMasks, currentHoverMask))
      ensures currentSearchMasks == [] ==> polygonItems == DrawnItems(masksData, false, [])
    {
      searchText := input;
      currentSearchMasks := SearchMasksByName(masksData, searchText, reply);
      if currentSearchMasks != [] {
        var highlighted := currentSearchMasks;
        if IsSet(currentHoverMask) && currentHoverMask.value !in highlighted {
          highlighted := highlighted + [currentHoverMask.value];
        }
        DrawAllMasks(true, highlighted);
      } else {
        DrawAllMasks(false, []);
      }
    }

    /** `clear_search`: forgets the results and draws every mask plainly. */
    method ClearSearch()
      requires Valid()
      modifies this
      ensures Valid()
      ensures masksData == old(masksData) && currentHoverMask == old(currentHoverMask)
      ensures searchText == old(searchText)
      ensures currentSearchMasks == []
      ensures polygonItems == DrawnItems(masksData, false, [])
    {
      currentSearchMasks := [];
      DrawAllMasks(false, []);
    }

    /** `on_mouse_move`: when the mask under the pointer changes, it becomes the
        hovered mask and the canvas is redrawn, highlighting it ahead of the
        search results, or the search results alone when no mask is under the
        pointer. */
    method OnMouseMove(x: real, y: real)
      requires Valid()
      modifies this
      ensures Valid()
      ensures masksData == old(masksData) && currentSearchMasks == old(currentSearchMasks)
      ensures searchText == old(searchText)
      ensures MaskAt(masksData, x, y) == old(currentHoverMask) ==>
                currentHoverMask == old(currentHoverMask) && polygonItems == old(polygonItems)
      ensures MaskAt(masksData, x, y) != old(currentHoverMask) ==>
                && currentHoverMask == MaskAt(masksData, x, y)
                && (IsSet(currentHoverMask) ==>
                      polygonItems == DrawnItems(masksData, true, [currentHoverMask.value] + currentSearchMasks))
                && (!IsSet(currentHoverMask) && currentSearchMasks != [] ==>
                      polygonItems == DrawnItems(masksData, true, currentSearchMasks))
                && (!IsSet(currentHoverMask) && currentSearchMasks == [] ==>
                      polygonItems == DrawnItems(masksData, false, []))
    {
      var maskId := FindMaskAtPoint(masksData, x, y);
      if maskId != currentHoverMask {
        currentHoverMask := maskId;
        if maskId.Some? && maskId.value != 0 {
          DrawAllMasks(true, [maskId.value] + currentSearchMasks);
        } else if currentSearchMasks != [] {
          DrawAllMasks(true, currentSearchMasks);
        } else {
          DrawAllMasks(false, []);
        }
      }
    }

    /** `on_listbox_select`: `selection` holds the selected rows. The first
        row's mask, if loaded, becomes the hovered mask and is highlighted ahead
        of the search results. */
    method OnListboxSelect(selection: seq<int>)
      requires Valid()
      modifies this
      ensures Valid()
      ensures masksData == old(masksData) && currentSearchMasks == old(currentSearchMasks)
      ensures searchText == old(searchText)
      ensures selection != [] && (exists i :: 0 <= i < |masksData| && masksData[i].id == MaskOfRow(selection[0])) ==>
                && currentHoverMask == Some(MaskOfRow(selection[0]))
                && polygonItems == DrawnItems(masksData, true, [MaskOfRow(selection[0])] + currentSearchMasks)
      ensures selection == [] || (forall i :: 0 <= i < |masksData| ==> masksData[i].id != MaskOfRow(selection[0])) ==>
                currentHoverMask == old(currentHoverMask) && polygonItems == old(polygonItems)
    {
      if selection == [] {
        return;
      }
      var maskId := selection[0] + 1;
      var i := 0;
      while i < |masksData|
        invariant 0 <= i <= |masksData|
        invariant forall j :: 0 <= j < i ==> masksData[j].id != maskId
      {
        if masksData[i].id == maskId {
          currentHoverMask := Some(maskId);
          DrawAllMasks(true, [maskId] + currentSearchMasks);
          return;
        }
        i := i + 1;
      }
    }
  }
}
