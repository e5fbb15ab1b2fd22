/**
 * The non-GUI part of `ImageEditor`: the two stacks and `zoomImageIndex` as fields
 * that the history methods update in place, and the load and save operations that
 * go through the PPM codec. Each method is tied to the history value of
 * `EditHistory` by `State()`.
 */
module Editor {
  import opened Wrappers
  import opened Raster
  import opened EditHistory
  import opened PpmCodec

  /** `writePpmImage`'s "No image loaded" failure. */
  datatype WriteError = NoImageLoaded

  class ImageEditor {
    var undoStack: seq<Raster>
    var redoStack: seq<Raster>
    var zoomImageIndex: int

    /** The history these fields hold. */
    function State(): History
      reads this
    {
      History(undoStack, redoStack, zoomImageIndex)
    }

    /** Both stacks start empty and the index at 0. */
    constructor()
      ensures State() == History([], [], 0)
    {
      undoStack := [];
      redoStack := [];
      zoomImageIndex := 0;
    }

    /** `addImage(img)`: the image is assumed not to be zoomed. */
    method AddImage(img: Raster)
      modifies this
      ensures State() == old(State()).Push(img, false)
    {
      undoStack := undoStack + [img];
      redoStack := [];
      zoomImageIndex := zoomImageIndex + 1;
    }

    /** `addImage(img, zoomed)`. */
    method AddImageZoomed(img: Raster, zoomed: bool)
      modifies this
      ensures State() == old(State()).Push(img, zoomed)
    {
      undoStack := undoStack + [img];
      redoStack := [];
      if !zoomed {
        zoomImageIndex := zoomImageIndex + 1;
      }
    }

    method UndoImage()
      modifies this
      ensures State() == old(State()).Undo()
    {
      if |undoStack| > 0 {
        var top := undoStack[|undoStack| - 1];
        undoStack := undoStack[..|undoStack| - 1];
        redoStack := redoStack + [top];
      }
    }

    method RedoImage()
      modifies this
      ensures State() == old(State()).Redo()
    {
      if |redoStack| > 0 {
        var top := redoStack[|redoStack| - 1];
        redoStack := redoStack[..|redoStack| - 1];
        undoStack := undoStack + [top];
      }
    }

    /** `getImage`: None stands for null. */
    function GetImage(): (r: Option<Raster>)
      reads this
      ensures r == State().Current()
      ensures r.Some? <==> |undoStack| > 0
    {
      State().Current()
    }

    /** `getOriginalImage`: None stands for null. */
    function GetOriginalImage(): (r: Option<Raster>)
      reads this
      ensures r == State().Original()
      ensures r.Some? ==> r.value in undoStack
    {
      State().Original()
    }

    /** `readPpmImage` on the text of the file: a decoding failure throws before any
        field is touched; a success resets the history to the decoded image alone. */
    method ReadPpmImage(text: string) returns (r: Result<Raster, DecodeError>)
      modifies this
      ensures r == DecodePpm(text)
      ensures r.Ok? ==> State() == Loaded(r.value)
      ensures r.Err? ==> State() == old(State())
    {
      r := Decode(text);
      if r.Ok? {
        undoStack := [];
        redoStack := [];
        zoomImageIndex := 0;
        AddImage(r.value);
      }
    }

    /** `writePpmImage`: the text written for the current image, or the failure when
        there is none. The editor is not changed, and the text reads back as the image. */
    method WritePpmImage() returns (r: Result<string, WriteError>)
      ensures r.Err? <==> undoStack == []
      ensures r.Ok? ==> r.value == EncodePpm(undoStack[|undoStack| - 1])
      ensures r.Ok? ==> DecodePpm(r.value) == Ok(undoStack[|undoStack| - 1])
    {
      var img := GetImage();
      if img.None? {
        return Err(NoImageLoaded);
      }
      var text := Encode(img.value);
      RoundTrip(img.value);
      return Ok(text);
    }
  }

  /** Loading then saving gives back text that decodes to the loaded image. */
  method LoadThenSave(e: ImageEditor, text: string) returns (loaded: Result<Raster, DecodeError>, saved: Result<string, WriteError>)
    modifies e
    ensures loaded == DecodePpm(text)
    ensures loaded.Ok? ==> saved.Ok? && DecodePpm(saved.value) == loaded
  {
    loaded := e.ReadPpmImage(text);
    saved := e.WritePpmImage();
    if loaded.Ok? {
      assert e.undoStack == [loaded.value];
    }
  }
}
