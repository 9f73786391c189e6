/**
 * The box-to-mask step (vision/box_to_seg.py): every box the annotator saved is
 * turned into the corner format the segmentation model takes, and the mask it
 * yields is written under a path the viewer later reads back. The model
 * inference itself and the file I/O are not part of this model; what is kept is
 * the box arithmetic and the naming of the output directory and files.
 */
module BoxToSeg {
  import opened Decimal
  import BoxAnnotator
  import MaskViewer

  /** A box as the segmentation model takes it: two opposite corners. */
  datatype SamBox = SamBox(x0: int, y0: int, x1: int, y1: int)

  /** A box as `show_box` draws it: a corner, a width and a height. */
  datatype Rect = Rect(x: int, y: int, width: int, height: int)

  /** `to_sam_bbox`: the far corner is the near corner moved by the size. */
  function ToSamBbox(x: int, y: int, width: int, height: int): (b: SamBox)
    ensures b.x0 == x && b.y0 == y
    ensures b.x1 - b.x0 == width && b.y1 - b.y0 == height
    ensures width >= 0 ==> b.x0 <= b.x1
    ensures height >= 0 ==> b.y0 <= b.y1
  {
    SamBox(x, y, x + width, y + height)
  }

  /** The rectangle `show_box` draws for a corner-format box. */
  function ShowBoxRect(b: SamBox): (r: Rect)
    ensures r.x == b.x0 && r.y == b.y0
    ensures r.x + r.width == b.x1 && r.y + r.height == b.y1
  {
    Rect(b.x0, b.y0, b.x1 - b.x0, b.y1 - b.y0)
  }

  /** Drawing a converted box recovers the box the annotator saved. */
  lemma ShowBoxInvertsToSam(x: int, y: int, width: int, height: int)
    ensures ShowBoxRect(ToSamBbox(x, y, width, height)) == Rect(x, y, width, height)
  {
  }

  /** Converting a drawn rectangle gives back the corner-format box. */
  lemma ToSamInvertsShowBox(b: SamBox)
    ensures var r := ShowBoxRect(b); ToSamBbox(r.x, r.y, r.width, r.height) == b
  {
  }

  /** A box drawn by two clicks becomes the box spanned by the clicks' smaller
      and larger coordinates, whatever the order of the clicks. */
  lemma AnnotatedBoxCorners(id: int, p1: BoxAnnotator.Point, p2: BoxAnnotator.Point)
    ensures var b := BoxAnnotator.BoxFromPoints(id, p1, p2);
            var s := ToSamBbox(b.x, b.y, b.width, b.height);
            && s.x0 == MinInt(p1.x, p2.x) && s.x1 == MaxInt(p1.x, p2.x)
            && s.y0 == MinInt(p1.y, p2.y) && s.y1 == MaxInt(p1.y, p2.y)
  {
  }

  function MinInt(a: int, b: int): int { if a <= b then a else b }
  function MaxInt(a: int, b: int): int { if a >= b then a else b }

  // ---------------------------------------------------------------------------
  // Paths
  // ---------------------------------------------------------------------------

  /** The file name of mask `id` of an artwork. */
  function MaskFileName(artwork: string, id: int): string
  {
    artwork + "_sam_mask_" + Format04d(id) + ".npy"
  }

  /** Different boxes of one artwork write different mask files. */
  lemma MaskFileNameInjective(artwork: string, i: int, j: int)
    requires MaskFileName(artwork, i) == MaskFileName(artwork, j)
    ensures i == j
  {
    var prefix := artwork + "_sam_mask_";
    Reassociate(prefix, Format04d(i), ".npy");
    Reassociate(prefix, Format04d(j), ".npy");
    PrefixCancel(prefix, Format04d(i) + ".npy", Format04d(j) + ".npy");
    SuffixCancel(Format04d(i), Format04d(j), ".npy");
    Format04dInjective(i, j);
  }

  lemma Reassociate(p: string, x: string, t: string)
    ensures p + x + t == p + (x + t)
  {
  }

  lemma PrefixCancel(p: string, x: string, y: string)
    requires p + x == p + y
    ensures x == y
  {
    assert x == (p + x)[|p|..];
    assert y == (p + y)[|p|..];
  }

  lemma SuffixCancel(x: string, y: string, t: string)
    requires x + t == y + t
    ensures x == y
  {
    assert x == (x + t)[..|x + t| - |t|];
    assert y == (y + t)[..|y + t| - |t|];
  }

  /** A mask file name starts as the artwork name does, or with `_`. */
  lemma MaskFileNameHead(artwork: string, id: int)
    ensures MaskFileName(artwork, id) != []
    ensures MaskFileName(artwork, id)[0] == if artwork != [] then artwork[0] else '_'
  {
    var rest := "_sam_mask_" + Format04d(id) + ".npy";
    assert MaskFileName(artwork, id) == artwork + rest;
    assert rest[0] == '_';
  }

  /** `s.replace(pat, "")`: occurrences of `pat` removed, scanning from the left
      and skipping over each one removed. */
  function RemoveAll(s: string, pat: string): string
    requires pat != []
    decreases |s|
  {
    if |s| < |pat| then s
    else if s[..|pat|] == pat then RemoveAll(s[|pat|..], pat)
    else [s[0]] + RemoveAll(s[1..], pat)
  }

  /** A string in which `pat` does not occur is left as it is. */
  lemma {:induction false} RemoveAllNoOccurrence(s: string, pat: string)
    requires pat != []
    requires forall i :: 0 <= i < |s| ==> !MaskViewer.OccursAt(pat, s, i)
    ensures RemoveAll(s, pat) == s
    decreases |s|
  {
    if |s| >= |pat| {
      assert !MaskViewer.OccursAt(pat, s, 0);
      assert s[..|pat|] != pat;
      forall i | 0 <= i < |s[1..]| ensures !MaskViewer.OccursAt(pat, s[1..], i) {
        if MaskViewer.OccursAt(pat, s[1..], i) {
          assert s[1..][i..i + |pat|] == s[i + 1..i + 1 + |pat|];
          assert MaskViewer.OccursAt(pat, s, i + 1);
        }
      }
      RemoveAllNoOccurrence(s[1..], pat);
      assert [s[0]] + s[1..] == s;
    }
  }

  /** A pattern whose first character occurs nowhere else in it, as `.` in
      ".jpg". */
  predicate LeadsAlone(pat: string)
  {
    pat != [] && forall i :: 1 <= i < |pat| ==> pat[i] != pat[0]
  }

  /** Removing such a pattern from a name with the pattern appended gives what
      removing it from the bare name gives: "Las Meninas.jpg" and
      "Las Meninas" name the same directory. */
  lemma {:induction false} RemoveAllIgnoresSuffix(s: string, pat: string)
    requires LeadsAlone(pat)
    ensures RemoveAll(s + pat, pat) == RemoveAll(s, pat)
    decreases |s|
  {
    var t := s + pat;
    if 0 < |s| < |pat| {
      // the pattern's first character would have to recur inside it
      assert t[..|pat|][|s|] == pat[0] != pat[|s|];
    }
    if s == [] {
      assert t == pat;
      assert t[|pat|..] == [];
    } else if t[..|pat|] == pat {
      assert s[..|pat|] == t[..|pat|];
      assert t[|pat|..] == s[|pat|..] + pat;
      RemoveAllIgnoresSuffix(s[|pat|..], pat);
    } else {
      assert t[1..] == s[1..] + pat;
      RemoveAllIgnoresSuffix(s[1..], pat);
      if |s| >= |pat| {
        assert s[..|pat|] == t[..|pat|];
      } else {
        assert [s[0]] + s[1..] == s;
      }
    }
  }

  /** `os.path.join(a, b)` on POSIX: an absolute `b` replaces `a`, otherwise
      the two are joined with one slash unless `a` is empty or ends in one. */
  function PathJoin(a: string, b: string): (r: string)
    ensures b != [] && b[0] == '/' ==> r == b
    ensures (b == [] || b[0] != '/') ==> a <= r && |b| <= |r| && r[|r| - |b|..] == b
    ensures (b == [] || b[0] != '/') && a != [] && a[|a| - 1] != '/' ==> r == a + "/" + b
    ensures (b == [] || b[0] != '/') && (a == [] || a[|a| - 1] == '/') ==> r == a + b
  {
    if b != [] && b[0] == '/' then b
    else if a == [] || a[|a| - 1] == '/' then a + b
    else a + "/" + b
  }

  const SaveDir: string := "./masks"

  /** The directory the masks of an artwork are written to. */
  function OutputDir(artwork: string): string
  {
    PathJoin(PathJoin(SaveDir, RemoveAll(artwork, ".jpg")), "array")
  }

  /** Where the mask of box `id` is written. */
  function SavePath(artwork: string, id: int): string
  {
    PathJoin(OutputDir(artwork), MaskFileName(artwork, id))
  }

  /** What the loop over the saved boxes does for one box: the file the mask
      goes to and the box the model is prompted with. */
  datatype MaskJob = MaskJob(savePath: string, box: SamBox)

  function MaskJobs(artwork: string, boxes: seq<BoxAnnotator.BBox>): (jobs: seq<MaskJob>)
    ensures |jobs| == |boxes|
    ensures forall i :: 0 <= i < |boxes| ==>
              jobs[i] == MaskJob(SavePath(artwork, boxes[i].id),
                                 ToSamBbox(boxes[i].x, boxes[i].y, boxes[i].width, boxes[i].height))
  {
    seq(|boxes|, i requires 0 <= i < |boxes| =>
      MaskJob(SavePath(artwork, boxes[i].id), ToSamBbox(boxes[i].x, boxes[i].y, boxes[i].width, boxes[i].height)))
  }

  /** A plain artwork name: not empty, no leading or trailing slash and no
      ".jpg" in it. */
  predicate PlainName(artwork: string)
  {
    && artwork != [] && artwork[0] != '/' && artwork[|artwork| - 1] != '/'
    && forall i :: 0 <= i < |artwork| ==> !MaskViewer.OccursAt(".jpg", artwork, i)
  }

  /** For a plain name the mask of box `id` is written exactly where the viewer
      reads mask `id` from. */
  lemma SavePathIsViewerPath(artwork: string, id: int)
    requires PlainName(artwork)
    ensures SavePath(artwork, id) == MaskViewer.MaskPath(artwork, id)
  {
    RemoveAllNoOccurrence(artwork, ".jpg");
    var dir := PathJoin(SaveDir, artwork);
    assert dir == SaveDir + "/" + artwork;
    var out := PathJoin(dir, "array");
    assert out == dir + "/" + "array";
    var name := MaskFileName(artwork, id);
    assert name[0] == artwork[0];
    assert SavePath(artwork, id) == out + "/" + name;
    JoinedPathShape(artwork, Format04d(id));
  }

  lemma JoinedPathShape(artwork: string, idx: string)
    ensures SaveDir + "/" + artwork + "/" + "array" + "/" + (artwork + "_sam_mask_" + idx + ".npy")
         == "./masks/" + artwork + "/array/" + artwork + "_sam_mask_" + idx + ".npy"
  {
    assert "./masks/" == SaveDir + "/";
    assert "/array/" == "/" + "array" + "/";
  }

  /** A name ending in ".jpg" is stripped for the directory but not for the file
      name, so the viewer, given the same name, looks elsewhere: for every name
      `s + ".jpg"` with no other ".jpg" in it and every id, the two paths differ. */
  lemma JpgNameMissesViewerPath(s: string, id: int)
    requires forall i :: 0 <= i < |s| ==> !MaskViewer.OccursAt(".jpg", s, i)
    ensures SavePath(s + ".jpg", id) != MaskViewer.MaskPath(s + ".jpg", id)
  {
    var art := s + ".jpg";
    assert LeadsAlone(".jpg");
    RemoveAllIgnoresSuffix(s, ".jpg");
    RemoveAllNoOccurrence(s, ".jpg");
    assert OutputDir(art) == PathJoin(PathJoin(SaveDir, s), "array");
    var viewer := MaskViewer.MaskPath(art, id);
    ViewerPathShape(s, id);
    var name := MaskFileName(art, id);
    assert name[..|art|] == art;
    if s != [] && s[0] == '/' {
      assert name[0] == '/';
      assert SavePath(art, id) == name;
      assert SavePath(art, id)[0] == '/' != viewer[0];
    } else {
      var dir := PathJoin(SaveDir, s);
      assert dir == "./masks/" + s;
      var out := PathJoin(dir, "array");
      assert 8 + |s| < |out| && out[8 + |s|] != '.' by {
        if s == [] || s[|s| - 1] == '/' {
          assert out == dir + "array";
          assert out[8 + |s|] == 'a';
        } else {
          assert out == dir + "/" + "array";
          assert out[8 + |s|] == '/';
        }
      }
      assert name[0] != '/' by {
        if s == [] {
          assert name[0] == art[0] == '.';
        } else {
          assert name[0] == art[0] == s[0];
        }
      }
      assert out[|out| - 1] == 'y';
      var saved := SavePath(art, id);
      assert saved == out + "/" + name;
      assert saved[8 + |s|] == out[8 + |s|];
      assert saved[8 + |s|] != viewer[8 + |s|];
    }
  }

  /** The viewer's path for a name `s + ".jpg"`: "./masks/", then the name,
      whose ".jpg" follows `s`. */
  lemma ViewerPathShape(s: string, id: int)
    ensures var p := MaskViewer.MaskPath(s + ".jpg", id);
            |p| > 8 + |s| && p[0] == '.' && p[8 + |s|] == '.'
  {
    var p := MaskViewer.MaskPath(s + ".jpg", id);
    assert p == "./masks/" + (s + ".jpg") + ("/array/" + (s + ".jpg") + "_sam_mask_" + Format04d(id) + ".npy");
    assert ("./masks/" + (s + ".jpg"))[8 + |s|] == '.';
  }

  /** Boxes numbered 1..n by the annotator are written to n different files. */
  lemma MaskJobsDistinctPaths(artwork: string, boxes: seq<BoxAnnotator.BBox>, i: int, j: int)
    requires BoxAnnotator.IdsConsecutive(boxes) && 0 <= i < j < |boxes|
    ensures MaskJobs(artwork, boxes)[i].savePath != MaskJobs(artwork, boxes)[j].savePath
  {
    assert boxes[i].id == i + 1 && boxes[j].id == j + 1;
    if SavePath(artwork, i + 1) == SavePath(artwork, j + 1) {
      SavePathInjective(artwork, i + 1, j + 1);
    }
  }

  /** One artwork's masks with different ids are saved under different paths. */
  lemma SavePathInjective(artwork: string, i: int, j: int)
    requires SavePath(artwork, i) == SavePath(artwork, j)
    ensures i == j
  {
    MaskFileNameHead(artwork, i);
    MaskFileNameHead(artwork, j);
    PathJoinSuffixInjective(OutputDir(artwork), MaskFileName(artwork, i), MaskFileName(artwork, j));
    MaskFileNameInjective(artwork, i, j);
  }

  /** Joining one directory with two names that are both absolute or both
      relative gives one path only when the names agree. */
  lemma PathJoinSuffixInjective(dir: string, a: string, b: string)
    requires a != [] && b != [] && (a[0] == '/' <==> b[0] == '/')
    requires PathJoin(dir, a) == PathJoin(dir, b)
    ensures a == b
  {
    if a[0] != '/' {
      if dir == [] || dir[|dir| - 1] == '/' {
        assert a == (dir + a)[|dir|..];
        assert b == (dir + b)[|dir|..];
      } else {
        assert a == (dir + "/" + a)[|dir| + 1..];
        assert b == (dir + "/" + b)[|dir| + 1..];
      }
    }
  }

  /** The annotator's boxes are written to the files the viewer reads them back
      from: box `i`, with id `i + 1`, to the file of mask `i + 1`. */
  lemma MaskJobsFeedViewer(artwork: string, boxes: seq<BoxAnnotator.BBox>, i: int)
    requires BoxAnnotator.IdsConsecutive(boxes) && PlainName(artwork) && 0 <= i < |boxes|
    ensures MaskJobs(artwork, boxes)[i].savePath == MaskViewer.MaskPath(artwork, i + 1)
  {
    SavePathIsViewerPath(artwork, i + 1);
  }
}
