/**
 * The folder-to-video converter: the ".jpg" and ".png" entries of a folder
 * are sorted by name, the first one fixes the video's frame size, and every
 * one of them, in that order, is read and handed to a video writer.
 *
 * `cv2.imread` is a parameter (`read`), where `None` stands for a file it
 * cannot read; the video writer is an object that records the frames it is
 * given.
 */
module Timelapse {
  import opened Wrappers
  import opened Listing
  import StringOrder

  /**
   * A picture as `cv2.imread` returns it, kept as its height, its width and
   * its values; only the height and width are used (they size the writer).
   */
  datatype Frame = Frame(height: nat, width: nat, pixels: seq<int>)

  // ---------------------------------------------------------------------------
  // Choosing the frames (create_timelapse_from_images.py:11)
  // ---------------------------------------------------------------------------

  /**
   * `f.endswith('.jpg') or f.endswith('.png')`: the last four characters are
   * exactly ".jpg" or ".png".
   */
  predicate IsFrameFile(f: string)
    ensures IsFrameFile(f) <==> |f| >= 4 && f[|f| - 4..] in [".jpg", ".png"]
  {
    EndsWith(f, ".jpg") || EndsWith(f, ".png")
  }

  /** The suffix test is case-sensitive: ".JPG" and ".PNG" are not frames, nor is ".jpeg". */
  lemma FrameFileExamples()
    ensures IsFrameFile("a.jpg") && IsFrameFile("b.png") && IsFrameFile(".png")
    ensures !IsFrameFile("c.JPG") && !IsFrameFile("d.PNG") && !IsFrameFile("e.jpeg") && !IsFrameFile("jpg")
  {
    assert "a.jpg"[1..] == ".jpg";
    assert "b.png"[1..] == ".png";
    assert ".png"[0..] == ".png";
    assert "c.JPG"[1..] == ".JPG";
    assert "d.PNG"[1..] == ".PNG";
    assert "e.jpeg"[2..] == "jpeg";
  }

  /** `sorted([f for f in os.listdir(input_folder) if f.endswith('.jpg') or f.endswith('.png')])` */
  function FrameFiles(listing: seq<string>): (r: seq<string>)
    ensures StringOrder.Sorted(r)
  {
    StringOrder.Sort(Filter(IsFrameFile, listing))
  }

  /**
   * The chosen names are exactly the ".jpg"/".png" entries, each as often as
   * it is listed: nothing is added, dropped or duplicated.
   */
  lemma FrameFilesSelect(listing: seq<string>, name: string)
    ensures multiset(FrameFiles(listing))[name] == if IsFrameFile(name) then multiset(listing)[name] else 0
    ensures name in FrameFiles(listing) <==> name in listing && IsFrameFile(name)
  {
    FilterCount(IsFrameFile, listing, name);
    assert name in FrameFiles(listing) <==> name in multiset(FrameFiles(listing));
    assert name in listing <==> name in multiset(listing);
  }

  /**
   * The chosen names are in ascending order, and they are the only ascending
   * arrangement of the ".jpg"/".png" entries.
   */
  lemma FrameFilesCanonical(listing: seq<string>, arranged: seq<string>)
    requires StringOrder.Sorted(arranged)
    requires forall name :: multiset(arranged)[name] == if IsFrameFile(name) then multiset(listing)[name] else 0
    ensures arranged == FrameFiles(listing)
  {
    forall name ensures multiset(arranged)[name] == multiset(FrameFiles(listing))[name] {
      FrameFilesSelect(listing, name);
    }
    assert multiset(arranged) == multiset(FrameFiles(listing));
    StringOrder.SortedPermutationUnique(arranged, FrameFiles(listing));
  }

  /** The order in which the folder is listed does not matter. */
  lemma FrameFilesIgnoreListingOrder(listing: seq<string>, listing': seq<string>)
    requires multiset(listing) == multiset(listing')
    ensures FrameFiles(listing) == FrameFiles(listing')
  {
    forall name ensures multiset(FrameFiles(listing'))[name] == if IsFrameFile(name) then multiset(listing)[name] else 0 {
      FrameFilesSelect(listing', name);
    }
    FrameFilesCanonical(listing, FrameFiles(listing'));
  }

  /** A ".JPG" entry and a ".txt" entry are both dropped from the listing. */
  lemma FrameFilterSkips()
    ensures Filter(IsFrameFile, ["c.JPG", "notes.txt"]) == []
  {
    assert Filter(IsFrameFile, ["notes.txt"]) == [] by {
      assert !IsFrameFile("notes.txt") by { assert "notes.txt"[5..] == ".txt"; }
      assert ["notes.txt"][1..] == [];
    }
    assert !IsFrameFile("c.JPG") by { assert "c.JPG"[1..] == ".JPG"; }
    assert ["c.JPG", "notes.txt"][1..] == ["notes.txt"];
  }

  /** The ".jpg"/".png" entries of "b.png", "a.jpg", "c.JPG", "notes.txt" are "b.png" and "a.jpg", in that order. */
  lemma FrameFilterScenario()
    ensures Filter(IsFrameFile, ["b.png", "a.jpg", "c.JPG", "notes.txt"]) == ["b.png", "a.jpg"]
  {
    assert Filter(IsFrameFile, ["a.jpg", "c.JPG", "notes.txt"]) == ["a.jpg"] by {
      FrameFilterSkips();
      assert IsFrameFile("a.jpg") by { assert "a.jpg"[1..] == ".jpg"; }
      assert ["a.jpg", "c.JPG", "notes.txt"][1..] == ["c.JPG", "notes.txt"];
    }
    assert IsFrameFile("b.png") by { assert "b.png"[1..] == ".png"; }
    assert ["b.png", "a.jpg", "c.JPG", "notes.txt"][1..] == ["a.jpg", "c.JPG", "notes.txt"];
  }

  /** A folder of "b.png", "a.jpg", "c.JPG" and "notes.txt" yields the frames "a.jpg" then "b.png". */
  lemma FrameFilesScenario()
    ensures FrameFiles(["b.png", "a.jpg", "c.JPG", "notes.txt"]) == ["a.jpg", "b.png"]
  {
    FrameFilterScenario();
    assert ["b.png", "a.jpg"][1..] == ["a.jpg"] && ["a.jpg"][1..] == [];
    assert StringOrder.Sort(["a.jpg"]) == ["a.jpg"];
    assert !StringOrder.Le("b.png", "a.jpg");
  }

  // ---------------------------------------------------------------------------
  // The video writer (create_timelapse_from_images.py:16-17, 22, 24)
  // ---------------------------------------------------------------------------

  /**
   * `cv2.VideoWriter`: it is opened with a file name, a codec, a frame rate
   * and a frame size (width first), and records the frames written to it
   * until it is released.  What the codec does with a frame is not modelled.
   */
  class VideoWriter {
    const path: string
    const fourcc: string
    const fps: int
    const frameSize: (nat, nat)
    var frames: seq<Option<Frame>>
    var released: bool

    constructor (path: string, fourcc: string, fps: int, frameSize: (nat, nat))
      ensures this.path == path && this.fourcc == fourcc && this.fps == fps && this.frameSize == frameSize
      ensures frames == [] && !released
    {
      this.path := path;
      this.fourcc := fourcc;
      this.fps := fps;
      this.frameSize := frameSize;
      frames := [];
      released := false;
    }

    /** `video.write(frame)`; a released writer ignores it. */
    method Write(frame: Option<Frame>)
      modifies this
      ensures released == old(released)
      ensures frames == if old(released) then old(frames) else old(frames) + [frame]
    {
      if !released {
        frames := frames + [frame];
      }
    }

    /** `video.release()` closes the file; the frames written so far are final. */
    method Release()
      modifies this
      ensures released && frames == old(frames)
    {
      released := true;
    }
  }

  // ---------------------------------------------------------------------------
  // convert_images_to_video (create_timelapse_from_images.py:9-25)
  // ---------------------------------------------------------------------------

  /** How a conversion can fail before any video is created. */
  datatype TimelapseError =
    | NoImageFiles                      // `image_files[0]` on an empty selection
    | UnreadableFirstImage(name: string) // `first_image.shape` when `cv2.imread` gave `None`

  /**
   * Chooses the frame files of `listing`, opens a writer sized after the
   * first of them, writes what `read` gives for each of them in sorted order,
   * and releases the writer.
   */
  method ConvertImagesToVideo(listing: seq<string>, read: string -> Option<Frame>, outputFile: string, fps: int)
    returns (result: Result<VideoWriter, TimelapseError>)
    ensures var files := FrameFiles(listing);
      && (files == [] ==> result == Failure(NoImageFiles))
      && (files != [] && read(files[0]).None? ==> result == Failure(UnreadableFirstImage(files[0])))
      && (result.Success? <==> files != [] && read(files[0]).Some?)
    ensures result.Success? ==>
      var files := FrameFiles(listing);
      var first := read(files[0]).value;
      var video := result.value;
      && fresh(video)
      && video.path == outputFile && video.fourcc == "mp4v" && video.fps == fps
      && video.frameSize == (first.width, first.height)
      && video.released
      && |video.frames| == |files|
      && forall i :: 0 <= i < |files| ==> video.frames[i] == read(files[i])
  {
    var files := FrameFiles(listing);
    if |files| == 0 {
      return Failure(NoImageFiles);
    }
    var first := read(files[0]);
    if first.None? {
      return Failure(UnreadableFirstImage(files[0]));
    }
    var height, width := first.value.height, first.value.width;
    var video := new VideoWriter(outputFile, "mp4v", fps, (width, height));
    for i := 0 to |files|
      invariant !video.released
      invariant |video.frames| == i
      invariant forall j :: 0 <= j < i ==> video.frames[j] == read(files[j])
    {
      var frame := read(files[i]);
      video.Write(frame);
    }
    video.Release();
    return Success(video);
  }
}
