// convert_video.py: turns a dump of raw RGBA frames into an H.264 video by
// running ffmpeg. The model covers the frame arithmetic, the filter chain, the
// encoder argument list, the command-line validation and how the encoder's
// outcome becomes the script's exit status. The encoder itself is opaque.
module VideoConvert {
  import opened Base

  /** The command-line defaults of `main`. */
  const DefaultWidth := 256
  const DefaultHeight := 192
  const DefaultFps := 24
  const DefaultScale := 8
  const BytesPerPixel := 4

  datatype Geometry = Geometry(frameSize: nat, frameCount: nat, remainder: nat)

  /** Bytes in one RGBA frame. */
  function FrameSize(width: int, height: int): (n: nat)
    requires width > 0 && height > 0
    ensures n > 0
  {
    assert width * height > 0;
    width * height * BytesPerPixel
  }

  /** Complete frames and trailing bytes of a dump of `fileSize` bytes. */
  function FrameGeometry(fileSize: nat, frameSize: nat): (g: Geometry)
    requires frameSize > 0
    ensures g.frameSize == frameSize
    ensures g.frameCount * frameSize + g.remainder == fileSize
    ensures g.remainder < frameSize
  {
    Geometry(frameSize, fileSize / frameSize, fileSize % frameSize)
  }

  /** The encoder's output resolution, every pixel blown up to `scale`×`scale`. */
  function OutputSize(width: int, height: int, scale: int): (p: Point)
  {
    Point(width * scale, height * scale)
  }

  /** `f'{w}x{h}'`, the raw stream's declared resolution. */
  function SizeText(w: nat, h: nat): string
  {
    NatToString(w) + "x" + NatToString(h)
  }

  function ScaleFilter(w: nat, h: nat): string
  {
    "scale=" + NatToString(w) + ":" + NatToString(h) + ":flags=neighbor"
  }

  /** The video filters in order: always a vertical flip, then nearest-neighbour scaling when scale > 1. */
  function Filters(width: nat, height: nat, scale: int): (fs: seq<string>)
    ensures |fs| == (if scale > 1 then 2 else 1)
    ensures fs[0] == "vflip"
    ensures scale > 1 ==> fs[1] == ScaleFilter(width * scale, height * scale)
  {
    ["vflip"] + if scale > 1 then [ScaleFilter(width * scale, height * scale)] else []
  }

  /** Python's `sep.join(parts)`. */
  function Join(parts: seq<string>, sep: char): string
    requires |parts| >= 1
    decreases |parts|
  {
    if |parts| == 1 then parts[0] else parts[0] + [sep] + Join(parts[1..], sep)
  }

  function FirstIndex(s: string, c: char): (i: nat)
    ensures i <= |s|
    ensures i < |s| ==> s[i] == c
    ensures forall k :: 0 <= k < i ==> s[k] != c
    decreases |s|
  {
    if |s| == 0 then 0 else if s[0] == c then 0 else 1 + FirstIndex(s[1..], c)
  }

  /** Python's `s.split(sep)`: the pieces between separators, the empty ones included. */
  function Split(s: string, sep: char): (r: seq<string>)
    ensures |r| >= 1
    decreases |s|
  {
    var i := FirstIndex(s, sep);
    if i == |s| then [s] else [s[..i]] + Split(s[i + 1..], sep)
  }

  predicate Free(parts: seq<string>, sep: char)
  {
    forall k :: 0 <= k < |parts| ==> sep !in parts[k]
  }

  /** Joining with a separator that occurs in no part splits back into the parts. */
  lemma {:induction false} SplitJoin(parts: seq<string>, sep: char)
    requires |parts| >= 1 && Free(parts, sep)
    ensures Split(Join(parts, sep), sep) == parts
    decreases |parts|
  {
    var p := parts[0];
    assert sep !in p;
    assert forall k :: 0 <= k < |p| ==> p[k] != sep;
    if |parts| == 1 {
      var i := FirstIndex(p, sep);
      assert i == |p|;
    } else {
      var rest := Join(parts[1..], sep);
      var s := p + [sep] + rest;
      var i := FirstIndex(s, sep);
      assert s[|p|] == sep;
      assert forall k :: 0 <= k < |p| ==> s[k] == p[k];
      assert i == |p|;
      assert s[..i] == p;
      assert s[i + 1..] == rest;
      assert Free(parts[1..], sep) by {
        forall k | 0 <= k < |parts| - 1 ensures sep !in parts[1..][k] {
          assert parts[1..][k] == parts[k + 1];
        }
      }
      SplitJoin(parts[1..], sep);
    }
  }

  /** The `-vf` argument. */
  function FilterChain(width: nat, height: nat, scale: int): string
  {
    Join(Filters(width, height, scale), ',')
  }

  /** Without scaling the chain is exactly the flip; with scaling it is the flip then the scale stage. */
  lemma FilterChainShape(width: nat, height: nat, scale: int)
    ensures scale <= 1 ==> FilterChain(width, height, scale) == "vflip"
    ensures scale > 1 ==> FilterChain(width, height, scale)
                          == "vflip," + ScaleFilter(width * scale, height * scale)
  {
    var fs := Filters(width, height, scale);
    if scale > 1 {
      assert fs[1..] == [fs[1]];
      assert Join(fs[1..], ',') == fs[1];
      assert "vflip" + [','] == "vflip,";
    }
  }

  /** The chain splits back at commas into exactly the filter list. */
  lemma FilterChainRoundTrip(width: nat, height: nat, scale: int)
    ensures Split(FilterChain(width, height, scale), ',') == Filters(width, height, scale)
  {
    var fs := Filters(width, height, scale);
    assert ',' !in "vflip";
    if scale > 1 {
      var w, h := width * scale, height * scale;
      assert ScaleFilter(w, h) == "scale=" + NatToString(w) + ":" + NatToString(h) + ":flags=neighbor";
      assert ',' !in NatToString(w) && ',' !in NatToString(h);
      assert ',' !in ScaleFilter(w, h) by {
        var s := ScaleFilter(w, h);
        forall k | 0 <= k < |s| ensures s[k] != ',' {
          var a := "scale=" + NatToString(w) + ":" + NatToString(h);
          assert s == a + ":flags=neighbor";
          if k >= |a| {
            assert s[k] == ":flags=neighbor"[k - |a|];
          }
        }
      }
    }
    assert Free(fs, ',');
    SplitJoin(fs, ',');
  }

  /** Reads `"{w}x{h}"` back. */
  function ParseSize(s: string): Option<(nat, nat)>
  {
    var i := FirstIndex(s, 'x');
    if i == |s| then None
    else
      var a, b := s[..i], s[i + 1..];
      if |a| >= 1 && |b| >= 1 && (forall k :: 0 <= k < |a| ==> '0' <= a[k] <= '9')
         && (forall k :: 0 <= k < |b| ==> '0' <= b[k] <= '9')
      then Some((ParseNat(a), ParseNat(b)))
      else None
  }

  /** The first `c` of `a + [c] + b`, where `a` has none, splits it back into `a` and `b`. */
  lemma FirstIndexAfter(a: string, c: char, b: string)
    requires forall k :: 0 <= k < |a| ==> a[k] != c
    ensures var s := a + [c] + b; FirstIndex(s, c) == |a| && s[..|a|] == a && s[|a| + 1..] == b
  {
    var s := a + [c] + b;
    assert s[|a|] == c;
    assert forall k :: 0 <= k < |a| ==> s[k] == a[k];
  }

  lemma SizeTextRoundTrip(w: nat, h: nat)
    ensures ParseSize(SizeText(w, h)) == Some((w, h))
  {
    var a, b := NatToString(w), NatToString(h);
    assert SizeText(w, h) == a + ['x'] + b;
    FirstIndexAfter(a, 'x', b);
    ParseNatToString(w);
    ParseNatToString(h);
  }

  /** The ffmpeg argument vector, in the order the script writes it. */
  function Command(input: string, output: string, width: nat, height: nat, fps: nat, scale: int): (cmd: seq<string>)
    ensures |cmd| == 23
  {
    ["ffmpeg",
     "-f", "rawvideo",
     "-pixel_format", "rgba",
     "-video_size", SizeText(width, height),
     "-framerate", NatToString(fps),
     "-i", input,
     "-vf", FilterChain(width, height, scale),
     "-c:v", "libx264",
     "-preset", "fast",
     "-pix_fmt", "yuv420p",
     "-crf", "18",
     "-y",
     output]
  }

  /** Where each option sits in the argument vector. */
  lemma CommandFlags(input: string, output: string, width: nat, height: nat, fps: nat, scale: int)
    ensures var cmd := Command(input, output, width, height, fps, scale);
            cmd[0] == "ffmpeg" && cmd[21] == "-y" && cmd[22] == output
            && cmd[5] == "-video_size" && cmd[7] == "-framerate" && cmd[9] == "-i" && cmd[10] == input && cmd[11] == "-vf"
  {
  }

  lemma CommandValues(input: string, output: string, width: nat, height: nat, fps: nat, scale: int)
    ensures var cmd := Command(input, output, width, height, fps, scale);
            cmd[6] == SizeText(width, height) && cmd[8] == NatToString(fps) && cmd[12] == FilterChain(width, height, scale)
  {
  }

  /**
    What the encoder is told: the declared size reads back as the original
    width and height, the rate as fps, the filter argument splits into the
    filter list, and `-y` comes just before the output path, which is last.
   */
  lemma CommandLayout(input: string, output: string, width: nat, height: nat, fps: nat, scale: int)
    ensures var cmd := Command(input, output, width, height, fps, scale);
            cmd[0] == "ffmpeg" && cmd[21] == "-y" && cmd[22] == output
            && cmd[5] == "-video_size" && ParseSize(cmd[6]) == Some((width, height))
            && cmd[7] == "-framerate" && ParseNat(cmd[8]) == fps
            && cmd[9] == "-i" && cmd[10] == input
            && cmd[11] == "-vf" && Split(cmd[12], ',') == Filters(width, height, scale)
  {
    CommandFlags(input, output, width, height, fps, scale);
    CommandValues(input, output, width, height, fps, scale);
    SizeTextRoundTrip(width, height);
    ParseNatToString(fps);
    FilterChainRoundTrip(width, height, scale);
  }

  /** What `subprocess.run(cmd, check=True)` did: the encoder is not part of this model. */
  datatype EncoderCall = Succeeded | Failed(returnCode: int) | NotFound

  datatype Conversion =
    | InputMissing
    | Ran(geometry: Geometry, warning: Option<nat>, output: Point, command: seq<string>, call: EncoderCall)

  /**
    `convert_dat_to_webm`. The file's existence and size and the encoder's
    outcome are inputs. Division by the frame size and by the frame rate
    means the callers must pass positive dimensions and rate.
   */
  function ConvertDatToVideo(inputExists: bool, fileSize: nat, input: string, output: string,
                             width: int, height: int, fps: int, scale: int, call: EncoderCall): (c: Conversion)
    requires width > 0 && height > 0 && fps > 0
    ensures !inputExists <==> c == InputMissing
    ensures c.Ran? ==> c.geometry.frameSize == width * height * 4
    ensures c.Ran? ==> c.geometry.frameCount == fileSize / c.geometry.frameSize
    ensures c.Ran? ==> (c.warning.Some? <==> fileSize % c.geometry.frameSize != 0)
    ensures c.Ran? && c.warning.Some? ==> c.warning.value == fileSize % c.geometry.frameSize
    ensures c.Ran? ==> c.output == Point(width * scale, height * scale) && c.call == call
  {
    if !inputExists then InputMissing
    else
      var g := FrameGeometry(fileSize, FrameSize(width, height));
      Ran(g, if g.remainder != 0 then Some(g.remainder) else None,
          OutputSize(width, height, scale), Command(input, output, width, height, fps, scale), call)
  }

  /** How the script ends: by returning normally or by `sys.exit(code)`. */
  datatype Termination = Returned | Exit(code: int)

  function Ending(c: Conversion): Termination
  {
    match c
    case InputMissing => Exit(1)
    case Ran(_, _, _, _, Succeeded) => Returned
    case Ran(_, _, _, _, Failed(_)) => Exit(1)
    case Ran(_, _, _, _, NotFound) => Exit(1)
  }

  /** The install hints printed when ffmpeg cannot be found. */
  function Guidance(c: Conversion): (lines: seq<string>)
  {
    if c.Ran? && c.call.NotFound? then
      ["  Ubuntu/Debian: sudo apt install ffmpeg",
       "  Arch Linux: sudo pacman -S ffmpeg",
       "  macOS: brew install ffmpeg"]
    else []
  }

  /** Encoder outcome mapping: success returns normally, every failure exits with 1, and guidance is given only when the tool is missing. */
  lemma EncoderOutcome(inputExists: bool, fileSize: nat, input: string, output: string,
                       width: int, height: int, fps: int, scale: int, call: EncoderCall)
    requires width > 0 && height > 0 && fps > 0
    ensures var c := ConvertDatToVideo(inputExists, fileSize, input, output, width, height, fps, scale, call);
            (Ending(c) == Returned <==> inputExists && call == Succeeded)
            && (Ending(c) != Returned ==> Ending(c) == Exit(1))
            && (|Guidance(c)| == 3 <==> inputExists && call == NotFound)
  {
  }

  /** A missing input ends the run before the file size is looked at. */
  lemma MissingInputIgnoresSize(size1: nat, size2: nat, input: string, output: string,
                                width: int, height: int, fps: int, scale: int, call: EncoderCall)
    requires width > 0 && height > 0 && fps > 0
    ensures ConvertDatToVideo(false, size1, input, output, width, height, fps, scale, call)
            == ConvertDatToVideo(false, size2, input, output, width, height, fps, scale, call)
    ensures Ending(ConvertDatToVideo(false, size1, input, output, width, height, fps, scale, call)) == Exit(1)
  {
  }

  datatype Invocation = Rejected(message: string) | Converted(conversion: Conversion)

  /** `main` after argument parsing: the checks run in order and each stops the run with exit status 1. */
  function RunCli(inputExists: bool, fileSize: nat, input: string, output: string,
                  width: int, height: int, fps: int, scale: int, call: EncoderCall): (r: Invocation)
    ensures r.Rejected? <==> width <= 0 || height <= 0 || fps <= 0 || scale <= 0
    ensures (width <= 0 || height <= 0) ==> r == Rejected("Error: Width and height must be positive")
    ensures width > 0 && height > 0 && fps <= 0 ==> r == Rejected("Error: Frame rate must be positive")
  {
    if width <= 0 || height <= 0 then Rejected("Error: Width and height must be positive")
    else if fps <= 0 then Rejected("Error: Frame rate must be positive")
    else if scale <= 0 then Rejected("Error: Scale factor must be positive")
    else Converted(ConvertDatToVideo(inputExists, fileSize, input, output, width, height, fps, scale, call))
  }

  function CliEnding(r: Invocation): Termination
  {
    match r
    case Rejected(_) => Exit(1)
    case Converted(c) => Ending(c)
  }

  /** The defaults pass validation and ask for a 2048×1536 output. */
  lemma DefaultsAccepted(inputExists: bool, fileSize: nat, input: string, output: string, call: EncoderCall)
    ensures var r := RunCli(inputExists, fileSize, input, output, DefaultWidth, DefaultHeight, DefaultFps, DefaultScale, call);
            r.Converted? && (inputExists ==> r.conversion.output == Point(2048, 1536))
  {
  }
}
