/**
 * The star-trail stacker: every ".jpg"/".JPG" file of a directory listing is
 * decoded and folded into a zero-initialised (height, width, 3) buffer by an
 * element-wise maximum; the buffer is then rounded to 8-bit and becomes the
 * output picture.
 *
 * Pixel buffers are kept the way numpy lays them out: one flat sequence in
 * row-major order with the channel varying fastest, so the value at
 * (row, col, channel) of a (height, width, channels) buffer sits at
 * offset (row * width + col) * channels + channel.
 */
module StarTrail {
  import opened Wrappers
  import opened Listing

  /** The accumulator always has three channels (`numpy.zeros((height, width, 3))`). */
  const Channels: nat := 3

  /** One channel value of an 8-bit picture. */
  type Byte = x: int | 0 <= x < 256

  /** A decoded picture: its numpy shape and its values in numpy's order. */
  datatype Raster = Raster(height: nat, width: nat, channels: nat, data: seq<Byte>)
  {
    /** The numpy shape: rows first, then columns, then channels. */
    function Shape(): (nat, nat, nat)
    {
      (height, width, channels)
    }

    /** PIL's `Image.size`: the numpy shape's first two entries, width first. */
    function Size(): (r: (nat, nat))
      ensures r.0 == Shape().1 && r.1 == Shape().0
    {
      (width, height)
    }
  }

  /** A picture whose buffer holds exactly one value per (row, col, channel). */
  type Image = r: Raster | |r.data| == r.height * r.width * r.channels
    witness Raster(0, 0, 0, [])

  /** Offset of (row, col, ch) in a buffer `width` pixels wide with `Channels` channels. */
  function Offset(width: nat, row: nat, col: nat, ch: nat): nat
  {
    (row * width + col) * Channels + ch
  }

  lemma OffsetInRange(height: nat, width: nat, row: nat, col: nat, ch: nat)
    requires row < height && col < width && ch < Channels
    ensures Offset(width, row, col, ch) < height * width * Channels
  {
    assert row * width + col < height * width by {
      assert (row + 1) * width <= height * width;
    }
  }

  // ---------------------------------------------------------------------------
  // Selecting the input files (Star_trail.py:5-6)
  // ---------------------------------------------------------------------------

  /**
   * `name[-4:] in [".jpg", ".JPG"]`: a name is stacked exactly when it ends
   * in ".jpg" or ".JPG" (case as written).
   */
  predicate IsStackInput(name: string)
    ensures IsStackInput(name) <==> EndsWith(name, ".jpg") || EndsWith(name, ".JPG")
  {
    PyTail(name, 4) in [".jpg", ".JPG"]
  }

  /** ".jpeg", ".Jpg" and ".png" files are not stacked; bare ".jpg" is. */
  lemma StackInputExamples()
    ensures !IsStackInput("a.jpeg") && !IsStackInput("a.Jpg") && !IsStackInput("a.png")
    ensures IsStackInput("a.jpg") && IsStackInput("IMG_1.JPG") && IsStackInput(".jpg")
    ensures !IsStackInput("jpg")
  {
    assert PyTail("a.jpeg", 4) == "jpeg";
    assert PyTail("a.Jpg", 4) == ".Jpg";
    assert PyTail("a.png", 4) == ".png";
    assert PyTail("a.jpg", 4) == ".jpg";
    assert PyTail("IMG_1.JPG", 4) == ".JPG";
  }

  /** The list comprehension of line 6: the stacked names, in listing order. */
  function SelectImages(files: seq<string>): (r: seq<string>)
    ensures forall name :: name in r <==> name in files && IsStackInput(name)
  {
    Filter(IsStackInput, files)
  }

  /**
   * The selection keeps every matching entry as often as it is listed, drops
   * the others, and keeps the listing order.
   */
  lemma SelectImagesSpec(files: seq<string>, more: seq<string>, name: string)
    ensures multiset(SelectImages(files))[name] == if IsStackInput(name) then multiset(files)[name] else 0
    ensures SelectImages(files + more) == SelectImages(files) + SelectImages(more)
  {
    FilterCount(IsStackInput, files, name);
    FilterConcat(IsStackInput, files, more);
  }

  // ---------------------------------------------------------------------------
  // The accumulator (Star_trail.py:9-16)
  // ---------------------------------------------------------------------------

  /** `numpy.maximum(a, b)` on two buffers of the same shape. */
  function MaxCells(a: seq<int>, b: seq<int>): (r: seq<int>)
    requires |a| == |b|
    ensures |r| == |a|
    ensures forall k :: 0 <= k < |r| ==> a[k] <= r[k] && b[k] <= r[k]
    ensures forall k :: 0 <= k < |r| ==> r[k] == a[k] || r[k] == b[k]
  {
    seq(|a|, k requires 0 <= k < |a| => if a[k] < b[k] then b[k] else a[k])
  }

  /** `numpy.zeros` with `n` cells. */
  function Zeros(n: nat): (r: seq<int>)
    ensures |r| == n && forall k :: 0 <= k < n ==> r[k] == 0
  {
    seq(n, k => 0)
  }

  /** Every picture has a buffer of `n` values. */
  ghost predicate AllOfLength(imgs: seq<Image>, n: nat)
  {
    forall i :: 0 <= i < |imgs| ==> |imgs[i].data| == n
  }

  /**
   * The accumulator after the loop has folded `imgs`, in order, into a zero
   * buffer of `n` cells.
   */
  function Fold(imgs: seq<Image>, n: nat): (r: seq<int>)
    requires AllOfLength(imgs, n)
    ensures |r| == n
    ensures forall k :: 0 <= k < n ==> 0 <= r[k] < 256
  {
    if imgs == [] then Zeros(n)
    else MaxCells(Fold(imgs[..|imgs| - 1], n), imgs[|imgs| - 1].data)
  }

  /**
   * `m` is the maximum of 0 and the value of cell `k` in each of `imgs`:
   * no picture exceeds it, and it is 0 or the value of some picture.
   */
  ghost predicate IsCellMax(imgs: seq<Image>, k: nat, m: int)
    requires forall i :: 0 <= i < |imgs| ==> k < |imgs[i].data|
  {
    && 0 <= m
    && (forall i :: 0 <= i < |imgs| ==> imgs[i].data[k] <= m)
    && (m == 0 || exists i :: 0 <= i < |imgs| && imgs[i].data[k] == m)
  }

  /** The loop invariant: after folding `imgs`, every cell holds the maximum of 0 and that cell over `imgs`. */
  lemma {:induction false} FoldIsCellMax(imgs: seq<Image>, n: nat, k: nat)
    requires AllOfLength(imgs, n) && k < n
    ensures IsCellMax(imgs, k, Fold(imgs, n)[k])
  {
    if imgs != [] {
      var init := imgs[..|imgs| - 1];
      var last := imgs[|imgs| - 1];
      FoldIsCellMax(init, n, k);
      var m := Fold(imgs, n)[k];
      assert m == Fold(init, n)[k] || m == last.data[k];
      forall i | 0 <= i < |imgs| ensures imgs[i].data[k] <= m {
        if i < |imgs| - 1 {
          assert imgs[i] == init[i];
        }
      }
      if m != 0 {
        if m == last.data[k] {
          assert imgs[|imgs| - 1].data[k] == m;
        } else {
          var i :| 0 <= i < |init| && init[i].data[k] == m;
          assert imgs[i].data[k] == m;
        }
      }
    }
  }

  /** Two collections with the same members have the same cell maxima. */
  lemma {:induction false} CellMaxUnique(a: seq<Image>, b: seq<Image>, k: nat, ma: int, mb: int)
    requires forall x :: x in a <==> x in b
    requires forall i :: 0 <= i < |a| ==> k < |a[i].data|
    requires forall i :: 0 <= i < |b| ==> k < |b[i].data|
    requires IsCellMax(a, k, ma) && IsCellMax(b, k, mb)
    ensures ma == mb
  {
    if ma != 0 {
      var i :| 0 <= i < |a| && a[i].data[k] == ma;
      assert a[i] in b;
      var j :| 0 <= j < |b| && b[j] == a[i];
    }
    if mb != 0 {
      var j :| 0 <= j < |b| && b[j].data[k] == mb;
      assert b[j] in a;
      var i :| 0 <= i < |a| && a[i] == b[j];
    }
  }

  /**
   * The stack depends only on which pictures are stacked: not on their
   * order, and not on how often each one occurs.
   */
  lemma {:induction false} OrderIndependent(a: seq<Image>, b: seq<Image>, n: nat)
    requires AllOfLength(a, n) && AllOfLength(b, n)
    requires forall x :: x in a <==> x in b
    ensures Fold(a, n) == Fold(b, n)
  {
    forall k | 0 <= k < n ensures Fold(a, n)[k] == Fold(b, n)[k] {
      FoldIsCellMax(a, n, k);
      FoldIsCellMax(b, n, k);
      CellMaxUnique(a, b, k, Fold(a, n)[k], Fold(b, n)[k]);
    }
  }

  /** Stacking a permutation of the pictures gives the same stack. */
  lemma {:induction false} PermutationInvariant(a: seq<Image>, b: seq<Image>, n: nat)
    requires AllOfLength(a, n) && multiset(a) == multiset(b)
    ensures AllOfLength(b, n) && Fold(a, n) == Fold(b, n)
  {
    forall x ensures x in a <==> x in b {
      assert x in a <==> x in multiset(a);
      assert x in b <==> x in multiset(b);
    }
    forall i | 0 <= i < |b| ensures |b[i].data| == n {
      assert b[i] in a;
    }
    OrderIndependent(a, b, n);
  }

  /** Stacking a picture a second time changes nothing. */
  lemma {:induction false} DuplicateIdempotent(imgs: seq<Image>, img: Image, n: nat)
    requires AllOfLength(imgs, n) && img in imgs
    ensures AllOfLength(imgs + [img], n) && Fold(imgs + [img], n) == Fold(imgs, n)
  {
    OrderIndependent(imgs + [img], imgs, n);
  }

  /** One step never lowers a cell and leaves each cell at least the new picture's value. */
  lemma StepMonotone(imgs: seq<Image>, img: Image, n: nat, k: nat)
    requires AllOfLength(imgs, n) && |img.data| == n && k < n
    ensures AllOfLength(imgs + [img], n)
    ensures Fold(imgs, n)[k] <= Fold(imgs + [img], n)[k]
    ensures img.data[k] <= Fold(imgs + [img], n)[k]
  {
    assert (imgs + [img])[..|imgs|] == imgs;
  }

  /** A picture that is nowhere brighter than the stack leaves it unchanged; an all-black picture is one. */
  lemma DarkerPictureIsNeutral(imgs: seq<Image>, img: Image, n: nat)
    requires AllOfLength(imgs, n) && |img.data| == n
    requires forall k :: 0 <= k < n ==> img.data[k] <= Fold(imgs, n)[k]
    ensures AllOfLength(imgs + [img], n) && Fold(imgs + [img], n) == Fold(imgs, n)
  {
    assert (imgs + [img])[..|imgs|] == imgs;
  }

  /**
   * Two 2x2 pictures, the same value in every channel: A is 10 everywhere,
   * B is 5 except 50 at row 0, column 1.  The stack is 10 except 50 there.
   */
  lemma TwoPictureScenario()
    ensures var a: Image := Raster(2, 2, 3, [10, 10, 10, 10, 10, 10, 10, 10, 10, 10, 10, 10]);
            var b: Image := Raster(2, 2, 3, [5, 5, 5, 50, 50, 50, 5, 5, 5, 5, 5, 5]);
            Fold([a, b], 12) == [10, 10, 10, 50, 50, 50, 10, 10, 10, 10, 10, 10]
  {
    var a: Image := Raster(2, 2, 3, [10, 10, 10, 10, 10, 10, 10, 10, 10, 10, 10, 10]);
    var b: Image := Raster(2, 2, 3, [5, 5, 5, 50, 50, 50, 5, 5, 5, 5, 5, 5]);
    assert [a, b][..1] == [a] && [a][..0] == [];
    assert Fold([a], 12) == a.data;
  }

  // ---------------------------------------------------------------------------
  // The 8-bit conversion (Star_trail.py:18)
  // ---------------------------------------------------------------------------

  /**
   * `numpy.round` followed by the cast to `uint8`.  The accumulator holds
   * whole numbers, so rounding does nothing; the cast keeps the value modulo 256.
   */
  function ToUint8(x: int): (r: Byte)
    ensures 0 <= x < 256 ==> r == x
    ensures (x - r) % 256 == 0
  {
    x % 256
  }

  /** The output picture built from the accumulator (`Image.fromarray(stack, mode = "RGB")`). */
  function Finalize(height: nat, width: nat, stack: seq<int>): (out: Image)
    requires |stack| == height * width * Channels
    ensures out.Shape() == (height, width, Channels)
    ensures forall k :: 0 <= k < |stack| && 0 <= stack[k] < 256 ==> out.data[k] == stack[k]
  {
    Raster(height, width, Channels, seq(|stack|, k requires 0 <= k < |stack| => ToUint8(stack[k])))
  }

  /** Stacking a single picture gives it back unchanged, e.g. a 1x1 picture of value 200. */
  lemma SinglePictureUnchanged(img: Image)
    requires img.channels == Channels
    ensures AllOfLength([img], |img.data|)
    ensures Finalize(img.height, img.width, Fold([img], |img.data|)) == img
  {
    assert [img][..0] == [];
    assert Fold([img], |img.data|) == img.data;
  }

  // ---------------------------------------------------------------------------
  // The whole script (Star_trail.py:5-18)
  // ---------------------------------------------------------------------------

  /** How a run can fail. */
  datatype StackError =
    | NoInputImages                      // `images[0]` on an empty selection
    | DecodeError(name: string)          // `Image.open` cannot read the file
    | ShapeMismatch(name: string, expected: (nat, nat, nat), actual: (nat, nat, nat))
                                         // `numpy.maximum` on buffers of different shapes

  /** `name` decodes to a picture of shape (height, width, 3). */
  ghost predicate Fits(name: string, decode: string -> Option<Image>, height: nat, width: nat)
  {
    decode(name).Some? && decode(name).value.Shape() == (height, width, Channels)
  }

  /** The error the script stops with at `name` when it does not fit a (height, width, 3) accumulator. */
  ghost function ErrorAt(name: string, decode: string -> Option<Image>, height: nat, width: nat): StackError
  {
    if decode(name).None? then DecodeError(name)
    else ShapeMismatch(name, (height, width, Channels), decode(name).value.Shape())
  }

  /** Opens one selected file and checks that it fits a (height, width, 3) accumulator. */
  function Load(name: string, decode: string -> Option<Image>, height: nat, width: nat): (r: Result<Image, StackError>)
    ensures r.Success? <==> Fits(name, decode, height, width)
    ensures r.Success? ==> r.value == decode(name).value
    ensures r.Failure? ==> r.error == ErrorAt(name, decode, height, width)
  {
    match decode(name)
    case None => Failure(DecodeError(name))
    case Some(img) =>
      if img.Shape() == (height, width, Channels) then Success(img)
      else Failure(ShapeMismatch(name, (height, width, Channels), img.Shape()))
  }

  /**
   * Opens the selected files in order, stopping at the first one that cannot
   * be read or does not fit the accumulator.
   */
  function LoadAll(names: seq<string>, decode: string -> Option<Image>, height: nat, width: nat): (r: Result<seq<Image>, StackError>)
    ensures r.Success? ==> |r.value| == |names|
    ensures r.Success? ==> forall i :: 0 <= i < |names| ==> Load(names[i], decode, height, width) == Success(r.value[i])
    ensures r.Failure? ==> exists i :: 0 <= i < |names| && Load(names[i], decode, height, width) == Failure(r.error)
                                        && forall j :: 0 <= j < i ==> Load(names[j], decode, height, width).Success?
  {
    if names == [] then Success([])
    else
      var init := names[..|names| - 1];
      var last := names[|names| - 1];
      match LoadAll(init, decode, height, width)
      case Failure(e) =>
        assert forall i :: 0 <= i < |init| ==> init[i] == names[i];
        Failure(e)
      case Success(imgs) =>
        match Load(last, decode, height, width)
        case Failure(e) =>
          assert forall i :: 0 <= i < |init| ==> init[i] == names[i];
          Failure(e)
        case Success(img) =>
          assert forall i :: 0 <= i < |init| ==> init[i] == names[i];
          Success(imgs + [img])
  }

  /**
   * What a run produces: the stacked picture, or the error that stops it.
   * It fails with `NoInputImages` exactly when nothing is selected, and with
   * `DecodeError` when the first selected file cannot be read.  Otherwise it
   * succeeds exactly when every selected file decodes to the first one's
   * (height, width) with three channels, and else stops at the first
   * selected file that does not, with `DecodeError` or `ShapeMismatch` for
   * it.  A picture it produces has the first selected file's size and three
   * channels.
   */
  function StackTrailSpec(files: seq<string>, decode: string -> Option<Image>): (r: Result<Image, StackError>)
    ensures r == Failure(NoInputImages) <==> SelectImages(files) == []
    ensures var images := SelectImages(files);
      images != [] && decode(images[0]).None? ==> r == Failure(DecodeError(images[0]))
    ensures var images := SelectImages(files);
      images != [] && decode(images[0]).Some? ==>
        var first := decode(images[0]).value;
        && (r.Success? <==> forall i :: 0 <= i < |images| ==> Fits(images[i], decode, first.height, first.width))
        && (r.Failure? ==>
              exists i :: 0 <= i < |images|
                && (forall j :: 0 <= j < i ==> Fits(images[j], decode, first.height, first.width))
                && !Fits(images[i], decode, first.height, first.width)
                && r.error == ErrorAt(images[i], decode, first.height, first.width))
    ensures r.Success? ==> SelectImages(files) != [] && decode(SelectImages(files)[0]).Some?
                           && r.value.Size() == decode(SelectImages(files)[0]).value.Size()
                           && r.value.channels == Channels
  {
    var images := SelectImages(files);
    if images == [] then Failure(NoInputImages)
    else match decode(images[0])
      case None => Failure(DecodeError(images[0]))
      case Some(first) =>
        var (width, height) := first.Size();
        match LoadAll(images, decode, height, width)
        case Failure(e) => Failure(e)
        case Success(imgs) => Success(Finalize(height, width, Fold(imgs, height * width * Channels)))
  }

  /** The accumulator and the loaded pictures agree on the buffer length. */
  lemma LoadedLength(names: seq<string>, decode: string -> Option<Image>, height: nat, width: nat)
    requires LoadAll(names, decode, height, width).Success?
    ensures AllOfLength(LoadAll(names, decode, height, width).value, height * width * Channels)
  {
    var imgs := LoadAll(names, decode, height, width).value;
    forall i | 0 <= i < |imgs| ensures |imgs[i].data| == height * width * Channels {
      assert Load(names[i], decode, height, width) == Success(imgs[i]);
    }
  }

  /** Once a prefix of the selection fails to load, the whole run fails with that error. */
  lemma {:induction false} FailureSticks(names: seq<string>, j: nat, decode: string -> Option<Image>, height: nat, width: nat)
    requires j <= |names| && LoadAll(names[..j], decode, height, width).Failure?
    ensures LoadAll(names, decode, height, width) == LoadAll(names[..j], decode, height, width)
    decreases |names|
  {
    if j < |names| {
      var init := names[..|names| - 1];
      assert init[..j] == names[..j];
      FailureSticks(init, j, decode, height, width);
    } else {
      assert names[..j] == names;
    }
  }

  /**
   * When a run succeeds, every selected file decoded, and every value of the
   * picture is the maximum of 0 and that value over all selected pictures.
   */
  lemma StackTrailOutcome(files: seq<string>, decode: string -> Option<Image>)
    ensures StackTrailSpec(files, decode).Success? ==>
      var images := SelectImages(files);
      var out := StackTrailSpec(files, decode).value;
      && images != [] && decode(images[0]).Some?
      && out.Size() == decode(images[0]).value.Size() && out.channels == Channels
      && var imgs := LoadAll(images, decode, out.height, out.width).value;
         && |imgs| == |images|
         && (forall i :: 0 <= i < |images| ==> decode(images[i]) == Some(imgs[i]))
         && forall k :: 0 <= k < |out.data| ==> IsCellMax(imgs, k, out.data[k])
  {
    var images := SelectImages(files);
    if images != [] && decode(images[0]).Some? {
      var first := decode(images[0]).value;
      var r := LoadAll(images, decode, first.height, first.width);
      if r.Success? {
        LoadedLength(images, decode, first.height, first.width);
        var n := first.height * first.width * Channels;
        var out := StackTrailSpec(files, decode).value;
        forall i | 0 <= i < |images| ensures decode(images[i]) == Some(r.value[i]) {
          assert Load(images[i], decode, first.height, first.width) == Success(r.value[i]);
        }
        forall k | 0 <= k < |out.data| ensures IsCellMax(r.value, k, out.data[k]) {
          FoldIsCellMax(r.value, n, k);
        }
      }
    }
  }

  /**
   * The accumulator's contract pixel by pixel: the value at (row, col, ch)
   * of a successful run's picture is the maximum of 0 and the value at
   * (row, col, ch) of every selected picture.
   */
  lemma StackedPixel(files: seq<string>, decode: string -> Option<Image>, row: nat, col: nat, ch: nat)
    requires StackTrailSpec(files, decode).Success?
    requires row < StackTrailSpec(files, decode).value.height
    requires col < StackTrailSpec(files, decode).value.width
    requires ch < Channels
    ensures var out := StackTrailSpec(files, decode).value;
      var imgs := LoadAll(SelectImages(files), decode, out.height, out.width).value;
      var k := Offset(out.width, row, col, ch);
      && k < |out.data|
      && (forall i :: 0 <= i < |imgs| ==> k < |imgs[i].data| && imgs[i].data[k] <= out.data[k])
      && (out.data[k] == 0 || exists i :: 0 <= i < |imgs| && k < |imgs[i].data| && imgs[i].data[k] == out.data[k])
  {
    var out := StackTrailSpec(files, decode).value;
    var images := SelectImages(files);
    var imgs := LoadAll(images, decode, out.height, out.width).value;
    var k := Offset(out.width, row, col, ch);
    OffsetInRange(out.height, out.width, row, col, ch);
    StackTrailOutcome(files, decode);
    LoadedLength(images, decode, out.height, out.width);
    assert IsCellMax(imgs, k, out.data[k]);
  }

  /** Two listings with the same entries select the same names. */
  lemma SameSelection(files: seq<string>, files': seq<string>)
    requires multiset(files) == multiset(files')
    ensures forall name :: name in SelectImages(files) <==> name in SelectImages(files')
  {
    forall name ensures name in SelectImages(files) <==> name in SelectImages(files') {
      SelectImagesSpec(files, [], name);
      SelectImagesSpec(files', [], name);
      assert name in files <==> name in multiset(files);
      assert name in files' <==> name in multiset(files');
    }
  }

  /** Loading succeeds on any list of names drawn from a list that loads. */
  lemma LoadAllSubset(names: seq<string>, names': seq<string>, decode: string -> Option<Image>, height: nat, width: nat)
    requires LoadAll(names, decode, height, width).Success?
    requires forall name :: name in names' ==> name in names
    ensures LoadAll(names', decode, height, width).Success?
  {
    forall i | 0 <= i < |names'| ensures Load(names'[i], decode, height, width).Success? {
      assert names'[i] in names;
      var j :| 0 <= j < |names| && names[j] == names'[i];
      assert Load(names[j], decode, height, width).Success?;
    }
  }

  /** Lists of the same names load to lists of the same pictures. */
  lemma LoadAllSameMembers(names: seq<string>, names': seq<string>, decode: string -> Option<Image>, height: nat, width: nat)
    requires LoadAll(names, decode, height, width).Success? && LoadAll(names', decode, height, width).Success?
    requires forall name :: name in names <==> name in names'
    ensures forall x :: x in LoadAll(names, decode, height, width).value <==> x in LoadAll(names', decode, height, width).value
  {
    var imgs := LoadAll(names, decode, height, width).value;
    var imgs' := LoadAll(names', decode, height, width).value;
    forall x | x in imgs ensures x in imgs' {
      var i :| 0 <= i < |imgs| && imgs[i] == x;
      assert Load(names[i], decode, height, width) == Success(x);
      assert names[i] in names';
      var j :| 0 <= j < |names'| && names'[j] == names[i];
      assert Load(names'[j], decode, height, width) == Success(imgs'[j]);
    }
    forall x | x in imgs' ensures x in imgs {
      var i :| 0 <= i < |imgs'| && imgs'[i] == x;
      assert Load(names'[i], decode, height, width) == Success(x);
      assert names'[i] in names;
      var j :| 0 <= j < |names| && names[j] == names'[i];
      assert Load(names[j], decode, height, width) == Success(imgs[j]);
    }
  }

  /** A 2x2 "a.jpg" and a 2x3 "b.jpg", all values 7; nothing else decodes. */
  function MismatchedPictures(name: string): Option<Image>
  {
    if name == "a.jpg" then Some(Raster(2, 2, 3, seq(12, k => 7)))
    else if name == "b.jpg" then Some(Raster(2, 3, 3, seq(18, k => 7)))
    else None
  }

  lemma SelectionScenario()
    ensures SelectImages(["a.jpg", "notes.txt", "b.jpg"]) == ["a.jpg", "b.jpg"]
  {
    assert PyTail("a.jpg", 4) == ".jpg" && PyTail("b.jpg", 4) == ".jpg" && PyTail("notes.txt", 4) == ".txt";
    var files := ["a.jpg", "notes.txt", "b.jpg"];
    assert files[1..] == ["notes.txt", "b.jpg"] && files[1..][1..] == ["b.jpg"] && files[1..][1..][1..] == [];
  }

  /**
   * A 2x3 second picture after a 2x2 first one stops the run with
   * `ShapeMismatch` (numpy cannot broadcast a width of 3 against 2).
   */
  lemma ShapeMismatchScenario()
    ensures StackTrailSpec(["a.jpg", "notes.txt", "b.jpg"], MismatchedPictures)
            == Failure(ShapeMismatch("b.jpg", (2, 2, 3), (2, 3, 3)))
  {
    SelectionScenario();
    var names := ["a.jpg", "b.jpg"];
    var a: Image := Raster(2, 2, 3, seq(12, k => 7));
    assert names[..1] == ["a.jpg"] && names[..1][..0] == [];
    assert MismatchedPictures("a.jpg") == Some(a);
    assert Load("a.jpg", MismatchedPictures, 2, 2) == Success(a);
    assert LoadAll([], MismatchedPictures, 2, 2) == Success([]);
    assert [] + [a] == [a];
    assert LoadAll(names[..1], MismatchedPictures, 2, 2) == Success([a]);
    assert LoadAll(names, MismatchedPictures, 2, 2) == Failure(ShapeMismatch("b.jpg", (2, 2, 3), (2, 3, 3)));
  }

  /**
   * Listing the same files in another order (as `os.listdir` may) does not
   * change a successful run's picture.
   */
  lemma StackTrailOrderIndependent(files: seq<string>, files': seq<string>, decode: string -> Option<Image>)
    requires multiset(files) == multiset(files')
    requires StackTrailSpec(files, decode).Success?
    ensures StackTrailSpec(files', decode) == StackTrailSpec(files, decode)
  {
    var images := SelectImages(files);
    var images' := SelectImages(files');
    SameSelection(files, files');
    var first := decode(images[0]).value;
    var height, width := first.height, first.width;
    assert LoadAll(images, decode, height, width).Success?;
    LoadAllSubset(images, images', decode, height, width);
    assert images' != [] by {
      assert images[0] in images';
    }
    // The first name of the other listing loads with the same shape.
    assert Load(images'[0], decode, height, width).Success?;
    assert decode(images'[0]).value.Size() == (width, height);
    LoadAllSameMembers(images, images', decode, height, width);
    LoadedLength(images, decode, height, width);
    LoadedLength(images', decode, height, width);
    OrderIndependent(LoadAll(images, decode, height, width).value, LoadAll(images', decode, height, width).value, height * width * Channels);
  }

  /** Loading one more name extends a loaded prefix, or stops with that name's error. */
  lemma LoadAllExtend(names: seq<string>, i: nat, decode: string -> Option<Image>, height: nat, width: nat)
    requires i < |names| && LoadAll(names[..i], decode, height, width).Success?
    ensures var step := Load(names[i], decode, height, width);
      LoadAll(names[..i + 1], decode, height, width)
        == if step.Failure? then Failure(step.error)
           else Success(LoadAll(names[..i], decode, height, width).value + [step.value])
  {
    assert names[..i + 1][..i] == names[..i] && names[..i + 1][i] == names[i];
  }

  /**
   * Element-wise maximum of the accumulator and one picture, in place
   * (`stack = numpy.maximum(stack, image_new)`).
   */
  method Accumulate(stack: array<int>, img: Image)
    requires stack.Length == |img.data|
    modifies stack
    ensures stack[..] == MaxCells(old(stack[..]), img.data)
  {
    var k := 0;
    while k < stack.Length
      invariant 0 <= k <= stack.Length
      invariant forall j :: 0 <= j < k ==> stack[j] == MaxCells(old(stack[..]), img.data)[j]
      invariant forall j :: k <= j < stack.Length ==> stack[j] == old(stack[j])
    {
      if stack[k] < img.data[k] {
        stack[k] := img.data[k];
      }
      k := k + 1;
    }
  }

  /**
   * The script: select the ".jpg"/".JPG" entries of `files`, size the
   * accumulator from the first one, fold every selected picture into it,
   * and convert it to 8-bit.  `decode` stands for `Image.open` followed by
   * `numpy.array`; `None` means the file cannot be read.
   */
  method StackTrail(files: seq<string>, decode: string -> Option<Image>) returns (result: Result<Image, StackError>)
    ensures result == StackTrailSpec(files, decode)
  {
    var images := SelectImages(files);
    if |images| == 0 {
      return Failure(NoInputImages);
    }
    var decoded := decode(images[0]);
    if decoded.None? {
      return Failure(DecodeError(images[0]));
    }
    var width, height := decoded.value.width, decoded.value.height;
    var n := height * width * Channels;
    var stack := new int[n](k => 0);
    var counter := 1;
    ghost var imgs: seq<Image> := [];
    assert stack[..] == Zeros(n);
    var i := 0;
    while i < |images|
      invariant 0 <= i <= |images|
      invariant counter == i + 1
      invariant stack.Length == n
      invariant LoadAll(images[..i], decode, height, width) == Success(imgs)
      invariant AllOfLength(imgs, n)
      invariant stack[..] == Fold(imgs, n)
    {
      var name := images[i];
      LoadAllExtend(images, i, decode, height, width);
      var image := decode(name);
      if image.None? {
        FailureSticks(images, i + 1, decode, height, width);
        return Failure(DecodeError(name));
      }
      var img := image.value;
      if img.Shape() != (height, width, Channels) {
        FailureSticks(images, i + 1, decode, height, width);
        return Failure(ShapeMismatch(name, (height, width, Channels), img.Shape()));
      }
      Accumulate(stack, img);
      ghost var before := imgs;
      imgs := imgs + [img];
      assert imgs[..|imgs| - 1] == before;
      counter := counter + 1;
      i := i + 1;
    }
    assert images[..i] == images;
    result := Success(Finalize(height, width, stack[..]));
  }
}
