# Basic Image Editor core, modelled in Dafny

This project models the non-GUI core of a small Swing raster-image editor. The core has three parts:

- **Codec.** The plain-text PPM ("P3") codec: `ImageEditor.readPpmImage` and
  `ImageEditor.writePpmImage`.
- **Transforms.** The pixel transforms of `ImageOperations`: `zeroRed`, `grayscale`,
  `invert`, `mirror`, `rotate` and `repeat`.
- **History.** The linear undo/redo history of `ImageEditor`: two stacks of images and the
  counter `zoomImageIndex`.

A `BufferedImage` of type TYPE_INT_RGB is modelled as an immutable value, `Raster.Raster`. It
holds a width and a height, both between 1 and the largest Java int, and rows of 8-bit RGB
pixels. A fresh image is all Black.

The files, by module:

- `raster.dfy` (`Raster`): the image value, Java int bounds and 32-bit wrap-around.
- `wrappers.dfy` (`Wrappers`): `Option`, standing in for null results, and `Result`, standing
  in for thrown exceptions.
- `index_math.dfy` (`IndexMath`): the arithmetic facts about row-major cursors and tiles.
- `text_scan.dfy` (`TextScan`): the parts of the Java library the codec reads and writes text
  through. These are `BufferedReader.readLine`, the default `Scanner` tokens with
  `hasNextInt` and `nextInt`, and `Integer.toString`.
- `ppm_codec.dfy` (`PpmCodec`): the codec. The decoder is an imperative `method Decode`. It has
  the comment-skipping loop and the pixel loop with its x/y cursor over a fresh row-major
  `array`. It is proved equal to the functional specification `DecodePpm`. The encoder
  `method Encode` builds the text the `PrintWriter` receives, line by line. It is proved
  equal to `EncodePpm`. Main results:
  - `RoundTrip`: writing an image and reading the text back gives the same image.
  - `DecodePlacement`: the k-th colour read lands at `(k mod w, k div w)`.
  - A lemma for each error path: the magic line (`DecodeNotPpm`), a missing or non-int header
    token (`HeaderMissing`, `HeaderNotInt`), the max and the dimensions (`DecodeMax`), a bad
    channel (`BadChannel`), a non-int or missing token inside a triple (`NonIntInTriple`,
    `TruncatedTriple`) and too many pixels (`TooManyPixels`).
- `image_operations.dfy` (`ImageOperations`): each transform as a method. Each method
  allocates a fresh `array2` output and fills it with the source's nested loops. It is proved
  equal to a specification function that gives every output pixel as an input pixel. The
  laws are lemmas about those functions: involutions, idempotence, rotation inverses, tiling
  and symmetry.
- `history.dfy` (`EditHistory`): the undo/redo history as a value, with push, undo, redo,
  current and original, and the laws of the history.
- `image_editor.dfy` (`Editor`): the class `ImageEditor`. Its fields are the two stacks and
  `zoomImageIndex`, and its methods update them in place. Each method's post-state is tied to
  the history value of `EditHistory`, and loading and saving go through the codec.

In these places the model follows the code as written:

- **Strict bound.** `getOriginalImage` uses a strict `zoomImageIndex < size`. Right after a
  load there is therefore no original image (`EditHistory.LoadedState`).
- **Index after a load.** A successful load leaves `zoomImageIndex` at 1, not 0. The code sets
  it to 0 and then calls `addImage`, which counts the push.
- **Undo does not move the index.** Undoing an edit leaves `zoomImageIndex` pointing past the
  undo stack (`EditHistory.UndoLeavesIndex`).
- **Pixel count not checked.** The decoder does not check the number of pixel triples:
  - too few leave the rest of the image Black (`PpmCodec.StopsAtNonInt`);
  - too many fail at the first one past the last row (`PpmCodec.TooManyPixels`);
  - the loop stops at the first token that is not an int, and ignores everything after it.
- **`repeat` accepts every int `n`.** The output side is `w * n` (or `h * n`) in 32-bit
  arithmetic:
  - `n == 0`, and any product that wraps below 1, throws when the output is allocated;
  - a product that overflows to a positive value throws when the copies run off its edge;
  - a negative `n` whose product wraps to a positive value gives an all-Black image
    (`ImageOperations.RepeatWraps`).
- **HORIZONTAL mirror is asymmetric.** It keeps the top half and reflects it into the bottom
  half, exactly as written (`ImageOperations.MirrorEffect`).

## Model

| member | source | states |
|---|---|---|
| TextScan.ReadLine | src/ImageEditor.java:58-61 | `readLine` returns None exactly at the end of the text. Otherwise it returns a line free of line breaks and the rest, and the text is that line followed by "\n", "\r\n", a lone "\r" or nothing. |
| TextScan.ReadLineOf | src/ImageEditor.java:58 | A line written with "\n" after it is read back whole, and the text after it is what is left. |
| TextScan.FirstNonComment | src/ImageEditor.java:58-61 | The line the comment-skipping loop stops at never starts with '#'. |
| TextScan.SkipsComment | src/ImageEditor.java:59-61 | A '#' line is skipped, and the search goes on in the text after it. |
| TextScan.StopsAtLine | src/ImageEditor.java:59-62 | The first line that does not start with '#' is the one returned, with the text after it. |
| TextScan.Tokens | src/ImageEditor.java:65 | Every Scanner token is non-empty and holds no whitespace. |
| TextScan.TokensConcat | src/ImageEditor.java:65-68 | Text that ends in whitespace tokenizes independently of what follows it. This is why the header and the pixel rows can be read one after the other. |
| TextScan.ThreeTokens | src/ImageEditor.java:66-68 | Three tokens, each followed by whitespace, are read as the next three `nextInt` tokens, in order. |
| TextScan.ParseInt | src/ImageEditor.java:66-68 | `nextInt` accepts a token only if it is an optional sign followed by decimal digits, with a value inside the int range. |
| TextScan.ScanIntsAppend | src/ImageEditor.java:74-77 | Reading tokens as ints is done token by token, so reading a concatenation reads each part. |
| TextScan.NatToStringParses | src/ImageEditor.java:111-117 | Every non-negative int printed by `Integer.toString` is one token and reads back as the same int. |
| TextScan.NatToStringDigits | src/ImageEditor.java:117 | A printed channel value is a non-empty run of digits whose decimal value is the number. |
| PpmCodec.NextInt | src/ImageEditor.java:66-68 | `nextInt` gives the token's int when it is one. A missing token is MissingToken, and a token that is not an int is NotAnInt. |
| PpmCodec.ColorAt | src/ImageEditor.java:75-78 | The colour is read exactly when the next three tokens are ints in 0..255, and it is the pixel of those three values. A missing g or b token is MissingToken, a non-int token is NotAnInt, and a channel outside 0..255 is ChannelOutOfRange. |
| PpmCodec.Triples | src/ImageEditor.java:74-84 | The pixel loop never reads more colours than the image has pixels. |
| PpmCodec.FilledPixels | src/ImageEditor.java:71-84 | The pixel store after the loop has exactly w * h pixels. |
| PpmCodec.ReadPixels | src/ImageEditor.java:72-84 | The imperative pixel loop fills the fresh Black image exactly as `FilledPixels` specifies. That is: the colours in order, Black after them, and the same failure on a bad token, an out-of-range channel or a row past the last one. |
| PpmCodec.Decode | src/ImageEditor.java:56-85 | The imperative `readPpmImage` (comment loop, magic check, header reads, max and dimension checks, pixel loop) returns exactly `DecodePpm(text)`, including every failure. |
| PpmCodec.TriplesOfPixels | src/ImageEditor.java:74-84 | On printed pixels followed by any tokens, the loop reads all of them when they fit and continues on what follows. Otherwise it fails with CoordinateOutOfBounds. |
| PpmCodec.DecodePlacement | src/ImageEditor.java:72-84 | In a decoded image, the k-th colour read is at `(k mod w, k div w)`, and every pixel after the last colour read is Black. |
| PpmCodec.DecodeAccepts | src/ImageEditor.java:58-71 | A read succeeds only if the first non-comment line is exactly "P3" and the next tokens are the width, the height and 255. |
| PpmCodec.DecodeMax | src/ImageEditor.java:68-71 | A max other than 255 is reported as UnsupportedMax before the dimensions are checked. With max 255, a width or height below 1 is BadDimensions. |
| PpmCodec.CommentIgnored | src/ImageEditor.java:58-62 | A '#' line before the magic line does not change the result of the read. |
| PpmCodec.MagicLine | src/ImageEditor.java:58-68 | Text that starts with the "P3" line reads as the tokens after that line. |
| PpmCodec.HeaderMissing | src/ImageEditor.java:66-68 | A text that ends before the width, height and max have been read fails with MissingToken. |
| PpmCodec.HeaderNotInt | src/ImageEditor.java:66-68 | A width, height or max token that is not an int fails with NotAnInt, whatever follows it. |
| PpmCodec.DecodeNotPpm | src/ImageEditor.java:59-64 | The read fails with NotPpm if and only if there is no non-comment line or that line is not "P3". |
| PpmCodec.HeaderRead | src/ImageEditor.java:66-84 | After a valid header, the result is the pixel loop's: its pixels cut into rows, or its failure. |
| PpmCodec.StopsAtNonInt | src/ImageEditor.java:74-84 | Reading stops at the first token that is not an int, or at the end of the text. Whatever follows is ignored, and the pixels not read stay Black. |
| PpmCodec.TooManyPixels | src/ImageEditor.java:78-83 | More colours than pixels is a failure with CoordinateOutOfBounds, whatever follows. |
| PpmCodec.BadChannel | src/ImageEditor.java:74-78 | After a valid header and pixels that fit, a triple with a channel outside 0..255 fails the read with ChannelOutOfRange. This holds even when the image is already full, because the colour is made before it is stored. |
| PpmCodec.NonIntInTriple | src/ImageEditor.java:74-77 | After pixels that fit, a green token that is not an int fails the read with NotAnInt. Only a red token that is not an int ends the loop quietly. |
| PpmCodec.TruncatedTriple | src/ImageEditor.java:74-77 | One or two ints left at the end of the text, after pixels that fit, fail the read with MissingToken. |
| PpmCodec.Encode | src/ImageEditor.java:102-121 | The imperative writer produces exactly `EncodePpm(img)`: the "P3" line, the "w h" line, the "255" line, then one line per row. |
| PpmCodec.EncodeRow | src/ImageEditor.java:113-120 | The StringBuilder loop, with its last space cut off, gives the row's values separated by single spaces. |
| PpmCodec.SpacedIsRow | src/ImageEditor.java:117-119 | Appending a value and a space per channel and then cutting the last character is the same as separating the values by spaces. |
| PpmCodec.RowTextEnds | src/ImageEditor.java:117-119 | A printed row starts and ends with a digit: there is no leading or trailing space. |
| PpmCodec.RowsTextTokens | src/ImageEditor.java:113-121 | The printed rows tokenize to the channel values of all pixels in row-major order. |
| PpmCodec.ScanPixelTokens | src/ImageEditor.java:117 | Those tokens read back as the channel values, three ints per pixel. |
| PpmCodec.ChunkFlatten | src/ImageEditor.java:78-83 | Cutting the row-major pixels back into rows of w gives the rows of the image. |
| PpmCodec.BodyRoundTrip | src/ImageEditor.java:66-84 | The header values and the printed pixels decode to the image they came from. |
| PpmCodec.RoundTrip | src/ImageEditor.java:56-125 | Reading back the text that `writePpmImage` writes gives the same image. |
| ImageOperations.ZeroRed | src/ImageOperations.java:12-23 | The loops produce `ZeroRedOf(img)`: same size, red cleared, green and blue kept (ZeroRedEffect). |
| ImageOperations.Grayscale | src/ImageOperations.java:32-44 | The loops produce `GrayscaleOf(img, luma)`: same size, each pixel the gray of its weighted value (GrayscaleEffect). |
| ImageOperations.Invert | src/ImageOperations.java:52-63 | The loops produce `InvertOf(img)`: same size, each channel c becomes 255 - c (InvertEffect). |
| ImageOperations.Mirror | src/ImageOperations.java:73-101 | The output is `MirrorOf(img, dir)` for both directions. |
| ImageOperations.MirrorRows | src/ImageOperations.java:77-87 | The two HORIZONTAL loops (rows below h/2 copied, the others reflected) produce `MirrorOf(img, Horizontal)`. |
| ImageOperations.MirrorColumns | src/ImageOperations.java:88-99 | The two VERTICAL loops (columns below w/2 copied, the others reflected) produce `MirrorOf(img, Vertical)`. |
| ImageOperations.Rotate | src/ImageOperations.java:111-129 | The output is `RotateOf(img, dir)`: h wide and w high. |
| ImageOperations.RotateClockwise | src/ImageOperations.java:115-120 | Writing input (x, y) to (h-1-y, x) for every pixel produces `RotateOf(img, Clockwise)`. |
| ImageOperations.RotateCounterClockwise | src/ImageOperations.java:121-127 | Writing input (x, y) to (y, w-1-x) for every pixel produces `RotateOf(img, CounterClockwise)`. |
| ImageOperations.Repeat | src/ImageOperations.java:140-158 | For every int n, the method returns `RepeatResult(img, n, dir)`: the copies, an all-Black output, or the two failures (allocation below 1, write past the edge). |
| ImageOperations.RepeatAcross | src/ImageOperations.java:144-149 | The three HORIZONTAL loops produce `RepeatOf(img, n, Horizontal)`. |
| ImageOperations.RepeatDown | src/ImageOperations.java:150-155 | The three VERTICAL loops produce `RepeatOf(img, n, Vertical)`. |
| ImageOperations.CopyTile | src/ImageOperations.java:147-149 | The two inner loops copy the image into the output at an offset and leave every other output pixel unchanged. |
| ImageOperations.Blank | src/ImageOperations.java:143-156 | An output that no loop writes to is all Black, with the requested size. |
| ImageOperations.ZeroRedEffect | src/ImageOperations.java:12-23 | Same size; every pixel has red 0 and keeps its green and blue. |
| ImageOperations.ZeroRedIdempotent | src/ImageOperations.java:12-23 | Applying zeroRed twice is the same as applying it once. |
| ImageOperations.InvertEffect | src/ImageOperations.java:52-63 | Same size; every channel c becomes 255 - c. |
| ImageOperations.InvertInvolution | src/ImageOperations.java:52-63 | Inverting twice gives back the image. |
| ImageOperations.GrayscaleEffect | src/ImageOperations.java:32-44 | Same size; every output pixel has three equal channels, the weighting of the input pixel. |
| ImageOperations.GrayscaleIdempotent | src/ImageOperations.java:32-44 | When the weighting maps every gray (c, c, c) to c, grayscale applied twice is the same as once. |
| ImageOperations.MirrorEffect | src/ImageOperations.java:73-101 | Same size. HORIZONTAL keeps rows y < h/2 and gives row y >= h/2 the input row h-1-y. VERTICAL does the same with columns. |
| ImageOperations.MirrorSymmetric | src/ImageOperations.java:73-101 | The mirrored image is top-bottom (HORIZONTAL) or left-right (VERTICAL) symmetric. |
| ImageOperations.MirrorIdempotent | src/ImageOperations.java:73-101 | Mirroring a mirrored image in the same direction changes nothing. |
| ImageOperations.RotateEffect | src/ImageOperations.java:111-129 | The dimensions are swapped. Input (x, y) lands at (h-1-y, x) clockwise and at (y, w-1-x) counter-clockwise. |
| ImageOperations.RotateAt | src/ImageOperations.java:114-127 | The rotated image's pixel at any output position is the input pixel the loops write there. |
| ImageOperations.RotateClockwiseThenCounter | src/ImageOperations.java:111-129 | A clockwise turn followed by a counter-clockwise turn gives back the image. |
| ImageOperations.RotateCounterThenClockwise | src/ImageOperations.java:111-129 | A counter-clockwise turn followed by a clockwise turn gives back the image. |
| ImageOperations.RotateThreeClockwise | src/ImageOperations.java:111-129 | Three clockwise turns are one counter-clockwise turn. |
| ImageOperations.RotateFourClockwise | src/ImageOperations.java:111-129 | Four clockwise turns give back the image. |
| ImageOperations.RepeatEffect | src/ImageOperations.java:140-158 | The width (HORIZONTAL) or the height (VERTICAL) is multiplied by n. Output pixel (x, y) is the input pixel at (x mod w, y), or at (x, y mod h) for VERTICAL. |
| ImageOperations.RepeatTiles | src/ImageOperations.java:146-155 | Every tile is an exact copy: input (x, y) appears at (x + r*w, y), or at (x, y + r*h), for every copy r < n. |
| ImageOperations.RepeatAt | src/ImageOperations.java:140-158 | The repeated image's pixel at any output position is the input pixel at that position modulo the tile. |
| ImageOperations.RepeatOnce | src/ImageOperations.java:140-158 | Repeating once gives back the image. |
| ImageOperations.RepeatOutcome | src/ImageOperations.java:140-158 | The copies are returned exactly when 1 <= n and the repeated side fits an int. n == 0 fails, and so does every n >= 1 whose product overflows. The raster's own refusal of a width times height that does not fit an int is not modelled (see Left out). |
| ImageOperations.RepeatNonPositive | src/ImageOperations.java:140-158 | With n below 1 no copy is ever made: any image returned is all Black. |
| ImageOperations.RepeatWraps | src/ImageOperations.java:145-149 | Concrete overflows. Three columns times -1431655765 give a one-column Black image. Five columns times 2^30 run off the edge. Two columns times 2^30 fail at allocation. |
| EditHistory.PushEffect | src/ImageEditor.java:133-157 | A push makes the image current and keeps everything below it. It empties redo and counts the push exactly when it is not a zoom. |
| EditHistory.PushDropsRedo | src/ImageEditor.java:133-157 | After a push, the reachable images are the ones below plus the new one, and redo does nothing. |
| EditHistory.UndoRedoEmpty | src/ImageEditor.java:164-182 | Undo with an empty undo stack, and redo with an empty redo stack, change nothing. |
| EditHistory.UndoRedoKeepIndex | src/ImageEditor.java:164-182 | Undo and redo never change zoomImageIndex. |
| EditHistory.UndoKeepsTimeline | src/ImageEditor.java:164-170 | Undo moves one image between the stacks and keeps the sequence of reachable images. |
| EditHistory.RedoKeepsTimeline | src/ImageEditor.java:176-182 | Redo moves one image between the stacks and keeps the sequence of reachable images. |
| EditHistory.UndoRedoMove | src/ImageEditor.java:164-182 | Undo moves the current image to the top of redo. Redo makes the top of redo current. Each moves exactly one image. |
| EditHistory.UndoThenRedo | src/ImageEditor.java:164-182 | Undo then redo restores the history exactly, and so does redo then undo, whenever there is a step to take. |
| EditHistory.UndoToEmpty | src/ImageEditor.java:164-170 | Undoing the only image leaves no current image. |
| EditHistory.LoadedState | src/ImageEditor.java:86-89 | After a load, the image is alone on the undo stack, redo is empty, the index is 1, and there is no original image. |
| EditHistory.ZoomFromCurrent | src/ImageEditor.java:149-157 | While every push has been counted, a zoomed push makes the image the zoom started from the original. |
| EditHistory.ZoomKeepsOriginal | src/ImageEditor.java:149-157 | Further zoomed pushes keep the original image. |
| EditHistory.OriginalRange | src/ImageEditor.java:196-202 | There is an original image if and only if 1 <= zoomImageIndex < size of undo, and it is on the undo stack. |
| EditHistory.UndoLeavesIndex | src/ImageEditor.java:164-170 | Load a, add b, undo: the index is 2 over an undo stack [a], and a zoom pushed then has no original. |
| EditHistory.EditScenario | src/ImageEditor.java:133-182 | Load, add, undo gives the first image back. Redo gives the second. Undo then add leaves nothing to redo and the new image current. |
| Editor.ImageEditor.constructor | src/ImageEditor.java:22-30 | An editor starts with both stacks empty and the index at 0. |
| Editor.ImageEditor.AddImage | src/ImageEditor.java:133-139 | The fields become the history after a counted push. |
| Editor.ImageEditor.AddImageZoomed | src/ImageEditor.java:149-157 | The fields become the history after a push that is counted unless zoomed. |
| Editor.ImageEditor.UndoImage | src/ImageEditor.java:164-170 | The fields become the history after undo. |
| Editor.ImageEditor.RedoImage | src/ImageEditor.java:176-182 | The fields become the history after redo. |
| Editor.ImageEditor.GetImage | src/ImageEditor.java:192-194 | The current image is the top of undo, and it is present exactly when undo is non-empty. |
| Editor.ImageEditor.GetOriginalImage | src/ImageEditor.java:196-202 | The original image is the history's, and when present it is one of the images on the undo stack. |
| Editor.ImageEditor.ReadPpmImage | src/ImageEditor.java:56-93 | The result is the decoding of the text. On success the history is the decoded image alone. On failure the editor is unchanged. |
| Editor.ImageEditor.WritePpmImage | src/ImageEditor.java:102-125 | Fails exactly when there is no image. Otherwise it returns the encoding of the current image, which decodes back to it. |
| Editor.LoadThenSave | src/ImageEditor.java:56-125 | Saving right after a successful load gives text that decodes to the loaded image. |

## Left out

- `zoom` (src/ImageOperations.java:169-178) is left out. It resamples with `Graphics2D` bilinear interpolation and floating-point scaling, which are library code. Its role in the history is modelled through `zoomed` pushes.
- ImageOperations.Grayscale: the weighting `round(0.299 R + 0.587 G + 0.114 B)` is floating point, so it is a parameter `luma`, not the formula.
- The GUI is left out: `paintComponent`, `revalidate`, `repaint`, menus, panels, listeners, and the `getMenuBar`/`getScrollPane` accessors. These only display state.
- `getUndoStack` and `getRedoStack` are left out. They hand out the live stacks, and the model's stacks are values, so the aliasing they allow is not captured.
- Files are left out. `readPpmImage` takes the file's text. `writePpmImage` returns the text it would print. `IOException` and the `RuntimeException` wrapping become `Result` values.
- Editor.ImageEditor.WritePpmImage does not model that `new PrintWriter(out)` truncates or creates the file before the "No image loaded" check.
- `println` writes the platform line separator. The model writes "\n".
- The Scanner is modelled on ASCII text. Left out: whitespace beyond U+007F, locale group separators such as "1,000", and non-ASCII digits.
- The packing of a `Color` into a `getRGB` int is left out. Pixels are kept as three channels, which is what the packing preserves for TYPE_INT_RGB.
- Java's raster constructors throw for any size whose width times height does not fit an int, whatever memory is available. The model does not have this refusal: such an image is treated as allocatable, in the decoder (`new BufferedImage(width, height)`) and in `repeat`. Running out of memory is left out too.
- Editor.ImageEditor.AddImage: the int `zoomImageIndex` is modelled as unbounded. Its overflow would take 2^31 pushes.
- ImageOperations.RepeatResult: the two overflow failures are stated from the position of the first write past the edge. The loops are run only on the path without overflow.
- The editor's `ShortcutKeyMap`, `MenuBar`, `ZoomMouseEventListener` and `ImagePanel` are not part of this model.
