/**
 * The editor's linear undo/redo history as a value: the undo stack and the redo
 * stack (each with its top at the end, as `java.util.Stack` pushes onto the end
 * of its vector) and `zoomImageIndex`, the count of non-zoomed pushes that
 * `getOriginalImage` uses to find the image a zoom starts from.
 */
module EditHistory {
  import opened Wrappers
  import opened Raster

  /** `s` read from its end to its start. */
  function Reversed<T>(s: seq<T>): (r: seq<T>)
    ensures |r| == |s|
    ensures forall i :: 0 <= i < |s| ==> r[i] == s[|s| - 1 - i]
  {
    if s == [] then [] else [s[|s| - 1]] + Reversed(s[..|s| - 1])
  }

  datatype History = History(undo: seq<Raster>, redo: seq<Raster>, zoomImageIndex: int) {

    /** `addImage(img)` (zoomed false) and `addImage(img, zoomed)`: push onto undo, drop
        the redo stack, and count the push unless the image is a zoom. */
    function Push(img: Raster, zoomed: bool): History {
      History(undo + [img], [], if zoomed then zoomImageIndex else zoomImageIndex + 1)
    }

    /** `undoImage`: the top of undo moves to the top of redo; nothing when undo is empty. */
    function Undo(): History {
      if undo == [] then this
      else History(undo[..|undo| - 1], redo + [undo[|undo| - 1]], zoomImageIndex)
    }

    /** `redoImage`: the top of redo moves back to the top of undo; nothing when redo is empty. */
    function Redo(): History {
      if redo == [] then this
      else History(undo + [redo[|redo| - 1]], redo[..|redo| - 1], zoomImageIndex)
    }

    /** `getImage`: the top of undo, or None (null) when undo is empty. */
    function Current(): Option<Raster> {
      if undo == [] then None else Some(undo[|undo| - 1])
    }

    /** `getOriginalImage`: the undo entry at zoomImageIndex - 1, when 1 <= zoomImageIndex
        and zoomImageIndex is strictly below the size of undo; otherwise None (null). */
    function Original(): Option<Raster> {
      if zoomImageIndex < 1 || zoomImageIndex >= |undo| then None else Some(undo[zoomImageIndex - 1])
    }

    /** Every image the history can reach, oldest first: undo from the bottom, then redo
        from its top down. Undo and redo only move the boundary between the two stacks. */
    function Timeline(): seq<Raster> {
      undo + Reversed(redo)
    }
  }

  /** The history right after `readPpmImage` succeeds: both stacks cleared, the index set
      to 0, and then the decoded image added with `addImage(img)`. */
  function Loaded(img: Raster): History {
    History([], [], 0).Push(img, false)
  }

  // ---------------------------------------------------------------- laws

  /** A push makes the pushed image current, keeps everything below it, empties redo and
      counts the push in zoomImageIndex exactly when it is not a zoom. */
  lemma PushEffect(h: History, img: Raster, zoomed: bool)
    ensures h.Push(img, zoomed).Current() == Some(img)
    ensures |h.Push(img, zoomed).undo| == |h.undo| + 1
    ensures h.Push(img, zoomed).undo[..|h.undo|] == h.undo
    ensures h.Push(img, zoomed).redo == []
    ensures h.Push(img, zoomed).zoomImageIndex == h.zoomImageIndex + (if zoomed then 0 else 1)
  {
    assert (h.undo + [img])[..|h.undo|] == h.undo;
  }

  /** After a push, the images the history can reach are the ones below the current image
      and the pushed one: the redo branch is gone, and redo does nothing. */
  lemma PushDropsRedo(h: History, img: Raster, zoomed: bool)
    ensures h.Push(img, zoomed).Timeline() == h.undo + [img]
    ensures h.Push(img, zoomed).Redo() == h.Push(img, zoomed)
  {
  }

  /** Undo and redo on an empty stack change nothing. */
  lemma UndoRedoEmpty(h: History)
    ensures h.undo == [] ==> h.Undo() == h
    ensures h.redo == [] ==> h.Redo() == h
  {
  }

  /** Undo and redo never change zoomImageIndex. */
  lemma UndoRedoKeepIndex(h: History)
    ensures h.Undo().zoomImageIndex == h.zoomImageIndex
    ensures h.Redo().zoomImageIndex == h.zoomImageIndex
  {
  }

  lemma ReversedSnoc<T>(s: seq<T>, x: T)
    ensures Reversed(s + [x]) == [x] + Reversed(s)
  {
    assert (s + [x])[..|s|] == s;
  }

  /** Undo keeps the timeline: it only moves an image from one stack to the other. */
  lemma UndoKeepsTimeline(h: History)
    ensures h.Undo().Timeline() == h.Timeline()
  {
    if h.undo != [] {
      var n := |h.undo|;
      var top := h.undo[n - 1];
      ReversedSnoc(h.redo, top);
      calc {
        h.Undo().Timeline();
        h.undo[..n - 1] + Reversed(h.redo + [top]);
        h.undo[..n - 1] + ([top] + Reversed(h.redo));
        { assert h.undo == h.undo[..n - 1] + [top]; }
        h.undo + Reversed(h.redo);
      }
    }
  }

  /** Redo keeps the timeline too. */
  lemma RedoKeepsTimeline(h: History)
    ensures h.Redo().Timeline() == h.Timeline()
  {
    if h.redo != [] {
      var m := |h.redo|;
      var top := h.redo[m - 1];
      ReversedSnoc(h.redo[..m - 1], top);
      calc {
        h.Timeline();
        { assert h.redo == h.redo[..m - 1] + [top]; }
        h.undo + Reversed(h.redo[..m - 1] + [top]);
        h.undo + ([top] + Reversed(h.redo[..m - 1]));
        h.Redo().Timeline();
      }
    }
  }

  /** Undo moves one step back in the timeline and redo one step forward, each only
      when there is a step to take. */
  lemma UndoRedoMove(h: History)
    ensures |h.Undo().undo| == if h.undo == [] then 0 else |h.undo| - 1
    ensures |h.Redo().undo| == |h.undo| + (if h.redo == [] then 0 else 1)
    ensures h.undo != [] ==> h.Undo().redo[|h.Undo().redo| - 1] == h.undo[|h.undo| - 1]
    ensures h.redo != [] ==> h.Redo().Current() == Some(h.redo[|h.redo| - 1])
  {
  }

  /** Undo followed by redo restores both stacks exactly, and so does redo followed by undo. */
  lemma UndoThenRedo(h: History)
    ensures h.undo != [] ==> h.Undo().Redo() == h
    ensures h.redo != [] ==> h.Redo().Undo() == h
  {
    if h.undo != [] {
      var n := |h.undo|;
      assert h.undo[..n - 1] + [h.undo[n - 1]] == h.undo;
      assert (h.redo + [h.undo[n - 1]])[..|h.redo|] == h.redo;
    }
    if h.redo != [] {
      var m := |h.redo|;
      assert h.redo[..m - 1] + [h.redo[m - 1]] == h.redo;
      assert (h.undo + [h.redo[m - 1]])[..|h.undo|] == h.undo;
    }
  }

  /** Undo can empty the undo stack: after undoing the only image there is no current one. */
  lemma UndoToEmpty(h: History)
    requires |h.undo| == 1
    ensures h.Undo().undo == [] && h.Undo().Current() == None
  {
  }

  /** A loaded image is the only one in the history, the index is 1, and because of the
      strict bound there is no original image to zoom from yet. */
  lemma LoadedState(img: Raster)
    ensures Loaded(img) == History([img], [], 1)
    ensures Loaded(img).Current() == Some(img)
    ensures Loaded(img).Original() == None
  {
  }

  /** While every push so far has been counted (zoomImageIndex == |undo|), a zoomed push
      makes the image the zoom started from the original one. */
  lemma ZoomFromCurrent(h: History, zoomed: Raster)
    requires 1 <= h.zoomImageIndex == |h.undo|
    ensures h.Push(zoomed, true).Original() == h.Current()
  {
  }

  /** Further zoomed pushes keep the original image, so zooms start from one base image. */
  lemma ZoomKeepsOriginal(h: History, zoomed: Raster)
    requires h.Original().Some?
    ensures h.Push(zoomed, true).Original() == h.Original()
  {
    assert (h.undo + [zoomed])[h.zoomImageIndex - 1] == h.undo[h.zoomImageIndex - 1];
  }

  /** The original image is None exactly when the index is out of the strict range. */
  lemma OriginalRange(h: History)
    ensures h.Original().Some? <==> 1 <= h.zoomImageIndex < |h.undo|
    ensures h.Original().Some? ==> h.Original().value in h.undo
  {
  }

  /** Undo does not move zoomImageIndex back: after loading a, adding b and undoing, the
      index (2) points past the undo stack ([a]), and a zoom of a pushed now gives no
      original image. */
  lemma UndoLeavesIndex(a: Raster, b: Raster, z: Raster)
    ensures Loaded(a).Push(b, false).Undo() == History([a], [b], 2)
    ensures Loaded(a).Push(b, false).Undo().Push(z, true).Original() == None
  {
  }

  /** The history law of the editor: load b0, add b1, undo gives b0 back; redo gives b1;
      undo then add b2 leaves nothing to redo and b2 current. */
  lemma EditScenario(b0: Raster, b1: Raster, b2: Raster)
    ensures Loaded(b0).Push(b1, false).Undo().Current() == Some(b0)
    ensures Loaded(b0).Push(b1, false).Undo().Redo().Current() == Some(b1)
    ensures Loaded(b0).Push(b1, false).Undo().Push(b2, false).Redo()
         == Loaded(b0).Push(b1, false).Undo().Push(b2, false)
    ensures Loaded(b0).Push(b1, false).Undo().Push(b2, false).Current() == Some(b2)
  {
    var edited := Loaded(b0).Push(b1, false);
    assert edited.undo == [b0, b1];
    var undone := edited.Undo();
    assert undone.undo == [b0] by {
      assert edited.undo[..1] == [b0];
    }
    assert undone.Redo().undo == [b0, b1];
  }
}
