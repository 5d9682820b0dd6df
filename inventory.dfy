/**
 * The image inventory of the exporter: the lines of `files.list` that name a full-size
 * image (`^\d{4}\.\d+\.\d+\..*\.noscale\.jpg$`), and the selection of the images of one
 * accession number, keyed by side (`obv`, `rev`, ...).
 */
module Inventory {
  import opened Common
  import opened Assoc

  const NoScale: string := ".noscale.jpg"

  /** The end of the run of ASCII digits that starts at i. */
  function DigitRunEnd(s: string, i: nat): (j: nat)
    requires i <= |s|
    ensures i <= j <= |s|
    decreases |s| - i
  {
    if i < |s| && IsDigit(s[i]) then DigitRunEnd(s, i + 1) else i
  }

  /** The run is all digits and stops at the end or at a character that is not one. */
  lemma {:induction false} DigitRun(s: string, i: nat)
    requires i <= |s|
    ensures forall k :: i <= k < DigitRunEnd(s, i) ==> IsDigit(s[k])
    ensures DigitRunEnd(s, i) < |s| ==> !IsDigit(s[DigitRunEnd(s, i)])
    decreases |s| - i
  {
    if i < |s| && IsDigit(s[i]) {
      DigitRun(s, i + 1);
    }
  }

  /**
   * The inventory pattern, read left to right: four digits, a dot, a digit run, a dot, a
   * digit run, a dot, then any text without a line feed that ends in `.noscale.jpg`.
   */
  predicate IsImageName(s: string)
  {
    |s| >= 5 && AllDigits(s[..4]) && s[4] == '.' &&
    var j1 := DigitRunEnd(s, 5);
    j1 > 5 && j1 < |s| && s[j1] == '.' &&
    var j2 := DigitRunEnd(s, j1 + 1);
    j2 > j1 + 1 && j2 < |s| && s[j2] == '.' &&
    EndsWith(s[j2 + 1..], NoScale) && '\n' !in s[j2 + 1..]
  }

  /** The same pattern as a description of the strings it accepts. */
  ghost predicate ImageNameShape(s: string)
  {
    exists a, b, c, x :: |a| == 4 && AllDigits(a) && |b| >= 1 && AllDigits(b) && |c| >= 1 && AllDigits(c)
      && '\n' !in x && s == a + "." + b + "." + c + "." + x + NoScale
  }

  lemma {:induction false} DigitRunOver(s: string, i: nat, d: string, rest: string)
    requires i <= |s| && AllDigits(d) && s[i..] == d + rest && (rest == [] || !IsDigit(rest[0]))
    ensures DigitRunEnd(s, i) == i + |d|
    decreases |d|
  {
    if d != [] {
      assert s[i] == d[0];
      assert s[i + 1..] == d[1..] + rest;
      DigitRunOver(s, i + 1, d[1..], rest);
    } else {
      assert s[i..] == rest;
    }
  }

  /** Every string the scan accepts has the shape of the pattern. */
  lemma {:induction false} ImageNameSound(s: string)
    requires IsImageName(s)
    ensures ImageNameShape(s)
  {
    var a, b, c, x := ImageNameParts(s);
    ShapeRegrouped(a, b, c, x);
    assert s == a + "." + b + "." + c + "." + x + NoScale;
  }

  /** The four pieces the scan of an accepted string finds. */
  lemma {:induction false} ImageNameParts(s: string) returns (a: string, b: string, c: string, x: string)
    requires IsImageName(s)
    ensures |a| == 4 && AllDigits(a) && |b| >= 1 && AllDigits(b) && |c| >= 1 && AllDigits(c) && '\n' !in x
    ensures s == a + ("." + (b + ("." + (c + ("." + (x + NoScale))))))
  {
    var j1 := DigitRunEnd(s, 5);
    var j2 := DigitRunEnd(s, j1 + 1);
    SplitAtDots(s, j1, j2);
    RunDigits(s, 5);
    RunDigits(s, j1 + 1);
    a, b, c := s[..4], s[5..j1], s[j1 + 1..j2];
    x := NoScaleBody(s[j2 + 1..]);
  }

  /** A single line ending in `.noscale.jpg` is a single line followed by that suffix. */
  lemma {:induction false} NoScaleBody(rest: string) returns (x: string)
    requires EndsWith(rest, NoScale) && '\n' !in rest
    ensures rest == x + NoScale && '\n' !in x
  {
    x := rest[..|rest| - |NoScale|];
    assert rest == x + NoScale;
    forall k | 0 <= k < |x| ensures x[k] != '\n' {
      assert x[k] == rest[k];
    }
  }

  /** Three dots cut a string into four pieces. */
  lemma {:induction false} SplitAtDots(s: string, j1: nat, j2: nat)
    requires 4 < j1 < j2 < |s| && s[4] == '.' && s[j1] == '.' && s[j2] == '.'
    ensures s == s[..4] + ("." + (s[5..j1] + ("." + (s[j1 + 1..j2] + ("." + s[j2 + 1..])))))
  {
    assert s[0..] == s;
    DotSplit(s, 0, 4);
    DotSplit(s, 5, j1);
    DotSplit(s, j1 + 1, j2);
    assert s[0..4] == s[..4];
  }

  /** The run found by the scan is all digits. */
  lemma {:induction false} RunDigits(s: string, i: nat)
    requires i <= |s|
    ensures AllDigits(s[i..DigitRunEnd(s, i)])
  {
    DigitRun(s, i);
    var d := s[i..DigitRunEnd(s, i)];
    forall k | 0 <= k < |d| ensures IsDigit(d[k]) {
      assert d[k] == s[i + k];
    }
  }

  /** A dot at j splits the text from i into what comes before it and what comes after it. */
  lemma {:induction false} DotSplit(s: string, i: nat, j: nat)
    requires i <= j < |s| && s[j] == '.'
    ensures s[i..] == s[i..j] + ("." + s[j + 1..])
  {
    assert s[i..] == s[i..j] + [s[j]] + s[j + 1..];
  }

  /** Every string of the shape of the pattern is accepted by the scan. */
  lemma {:induction false} ImageNameComplete(a: string, b: string, c: string, x: string)
    requires |a| == 4 && AllDigits(a) && |b| >= 1 && AllDigits(b) && |c| >= 1 && AllDigits(c) && '\n' !in x
    ensures IsImageName(a + "." + b + "." + c + "." + x + NoScale)
  {
    var t3 := x + NoScale;
    var t2 := c + ("." + t3);
    var t1 := b + ("." + t2);
    var s := a + ("." + t1);
    ShapeRegrouped(a, b, c, x);
    HeadDot(a, t1);
    DigitsThenDot(s, 5, b, t2);
    DigitsThenDot(s, 5 + |b| + 1, c, t3);
    NoScaleTail(x);
    AcceptedByScan(s, 5 + |b|, 5 + |b| + 1 + |c|);
  }

  /** The scan accepts a string once each of its steps is known to succeed. */
  lemma {:induction false} AcceptedByScan(s: string, j1: nat, j2: nat)
    requires |s| >= 5 && AllDigits(s[..4]) && s[4] == '.'
    requires DigitRunEnd(s, 5) == j1 && 5 < j1 < |s| && s[j1] == '.'
    requires DigitRunEnd(s, j1 + 1) == j2 && j1 + 1 < j2 < |s| && s[j2] == '.'
    requires EndsWith(s[j2 + 1..], NoScale) && '\n' !in s[j2 + 1..]
    ensures IsImageName(s)
  {
  }

  /** A single line followed by `.noscale.jpg` ends in that suffix and is a single line. */
  lemma {:induction false} NoScaleTail(x: string)
    requires '\n' !in x
    ensures EndsWith(x + NoScale, NoScale) && '\n' !in x + NoScale
  {
    var t := x + NoScale;
    NoScaleOneLine();
    assert t[|t| - |NoScale|..] == NoScale;
    forall k | 0 <= k < |t| ensures t[k] != '\n' {
      if k >= |x| { assert t[k] == NoScale[k - |x|]; } else { assert t[k] == x[k]; }
    }
  }

  /** The pattern's pieces regrouped to the right. */
  lemma {:induction false} ShapeRegrouped(a: string, b: string, c: string, x: string)
    ensures a + "." + b + "." + c + "." + x + NoScale == a + ("." + (b + ("." + (c + ("." + (x + NoScale))))))
  {
    var t3 := x + NoScale;
    var t2 := c + ("." + t3);
    var t1 := b + ("." + t2);
    ConcatAssoc(a + "." + b + "." + c + ".", x, NoScale);
    ConcatAssoc(a + "." + b + "." + c, ".", t3);
    ConcatAssoc(a + "." + b + ".", c, "." + t3);
    ConcatAssoc(a + "." + b, ".", t2);
    ConcatAssoc(a + ".", b, "." + t2);
    ConcatAssoc(a, ".", t1);
  }

  /** The text before a dot, the dot, and the text after it. */
  lemma {:induction false} HeadDot(a: string, t: string)
    ensures var s := a + ("." + t);
      |s| == |a| + 1 + |t| && s[..|a|] == a && s[|a|] == '.' && s[|a| + 1..] == t
  {
    var s := a + ("." + t);
    assert s[..|a|] == a;
    assert s[|a| + 1..] == t;
  }

  /** A digit run followed by a dot ends at the dot. */
  lemma {:induction false} DigitsThenDot(s: string, i: nat, d: string, rest: string)
    requires i <= |s| && s[i..] == d + ("." + rest) && AllDigits(d)
    ensures DigitRunEnd(s, i) == i + |d| && i + |d| < |s| && s[i + |d|] == '.' && s[i + |d| + 1..] == rest
  {
    HeadDot(d, rest);
    DigitRunOver(s, i, d, "." + rest);
    assert s[i + |d|] == s[i..][|d|];
    assert s[i + |d| + 1..] == s[i..][|d| + 1..];
  }

  lemma {:induction false} NoScaleOneLine()
    ensures '\n' !in NoScale && |NoScale| == 12
  {
  }

  /** The left-to-right scan accepts exactly the strings of the pattern. */
  lemma {:induction false} ImageNameIff(s: string)
    ensures IsImageName(s) <==> ImageNameShape(s)
  {
    if IsImageName(s) {
      ImageNameSound(s);
    }
    if ImageNameShape(s) {
      var a, b, c, x :| |a| == 4 && AllDigits(a) && |b| >= 1 && AllDigits(b) && |c| >= 1 && AllDigits(c)
        && '\n' !in x && s == a + "." + b + "." + c + "." + x + NoScale;
      ImageNameComplete(a, b, c, x);
    }
  }

  /** An image name is a single line. */
  lemma {:induction false} ImageNameOneLine(s: string)
    requires IsImageName(s)
    ensures '\n' !in s
  {
    var j1 := DigitRunEnd(s, 5);
    var j2 := DigitRunEnd(s, j1 + 1);
    DigitRun(s, 5);
    DigitRun(s, j1 + 1);
    forall k | 0 <= k < |s| ensures s[k] != '\n' {
      if k < 4 {
        assert IsDigit(s[..4][k]);
      } else if j2 < k {
        assert s[k] == s[j2 + 1..][k - j2 - 1];
      }
    }
  }

  /**
   * preg_match of the inventory pattern on a line as fgets returns it: `$` may stop in
   * front of a final line feed, and `.` never crosses one.
   */
  predicate IsInventoryLine(line: string)
  {
    IsImageName(Chomp(line))
  }

  /** The inventory of a list of lines: the trimmed lines that match, in order. */
  function Inventory(lines: seq<string>): seq<string>
  {
    Keep(lines, IsInventoryLine, Trim)
  }

  /** Reads `files.list` line by line, keeping the trimmed lines that match the pattern. */
  method ReadInventory(lines: seq<string>) returns (imageFiles: seq<string>)
    ensures imageFiles == Inventory(lines)
  {
    imageFiles := [];
    var i := 0;
    while i < |lines|
      invariant 0 <= i <= |lines|
      invariant imageFiles == Inventory(lines[..i])
    {
      var line := lines[i];
      assert lines[..i + 1][..i] == lines[..i];
      if IsInventoryLine(line) {
        imageFiles := imageFiles + [Trim(line)];
      }
      i := i + 1;
    }
    assert lines[..|lines|] == lines;
  }

  /** For a matching line, trim() removes exactly the line feed fgets kept. */
  lemma {:induction false} TrimMatchingLine(line: string)
    requires IsInventoryLine(line)
    ensures Trim(line) == Chomp(line)
  {
    var body := Chomp(line);
    assert !IsTrimmed(body[0]);
    assert body[|body| - 1] == 'g' by {
      var j2 := DigitRunEnd(body, DigitRunEnd(body, 5) + 1);
      var rest := body[j2 + 1..];
      assert rest[|rest| - 1] == NoScale[|NoScale| - 1];
    }
    if line == body {
      TrimKeeps(body);
    } else {
      TrimDropsNewline(body);
    }
  }

  /** Every entry of the inventory is an image name. */
  lemma {:induction false} InventoryNames(lines: seq<string>)
    ensures forall f :: f in Inventory(lines) ==> IsImageName(f)
  {
    forall f | f in Inventory(lines) ensures IsImageName(f) {
      var i := InventorySound(lines, f);
    }
  }

  /** Every matching line is in the inventory, without its line feed. */
  lemma {:induction false} InventoryComplete(lines: seq<string>, i: nat)
    requires i < |lines| && IsInventoryLine(lines[i])
    ensures Chomp(lines[i]) in Inventory(lines)
  {
    TrimMatchingLine(lines[i]);
    KeepHas(lines, IsInventoryLine, Trim, i);
  }

  /** Every entry of the inventory comes from a matching line. */
  lemma {:induction false} InventorySound(lines: seq<string>, f: string) returns (i: nat)
    requires f in Inventory(lines)
    ensures i < |lines| && IsInventoryLine(lines[i]) && f == Chomp(lines[i])
  {
    i := KeepFrom(lines, IsInventoryLine, Trim, f);
    TrimMatchingLine(lines[i]);
  }

  // ----- the images of one accession number -----

  /**
   * The side captured by `/^<accnum>\.(.*)\.noscale\.jpg$/` (with the dots of the accession
   * number escaped), or None when the file is not an image of that accession number.
   */
  function SideOf(accnum: string, image: string): (side: Option<string>)
  {
    var body := Chomp(image);
    var head := accnum + ".";
    if StartsWith(body, head) && |body| >= |head| + |NoScale| && EndsWith(body, NoScale)
       && '\n' !in body[|head|..|body| - |NoScale|]
    then Some(body[|head|..|body| - |NoScale|])
    else None
  }

  /** A file is an image of accnum, with side `side`, exactly when it is named `<accnum>.<side>.noscale.jpg`. */
  lemma {:induction false} SideOfIff(accnum: string, image: string, side: string)
    requires '\n' !in image
    ensures SideOf(accnum, image) == Some(side) <==> image == accnum + "." + side + NoScale && '\n' !in side
  {
    var head := accnum + ".";
    if image == accnum + "." + side + NoScale && '\n' !in side {
      assert Chomp(image) == image;
      ThreePieces(head, side, NoScale);
    }
    if SideOf(accnum, image) == Some(side) {
      assert image != [] ==> image[|image| - 1] != '\n';
      assert Chomp(image) == image;
      SplitThree(image, |head|, |image| - |NoScale|);
    }
  }

  /** Three pieces laid end to end are found again by slicing. */
  lemma {:induction false} ThreePieces(h: string, m: string, t: string)
    ensures var s := h + m + t;
      s[..|h|] == h && s[|h|..|s| - |t|] == m && s[|s| - |t|..] == t
  {
    var s := h + m + t;
    assert s[..|h|] == h;
    assert s[|h|..|s| - |t|] == m;
    assert s[|s| - |t|..] == t;
  }

  /** Any two cut points split a text into three pieces. */
  lemma {:induction false} SplitThree(s: string, i: nat, j: nat)
    requires i <= j <= |s|
    ensures s == s[..i] + s[i..j] + s[j..]
  {
  }

  /** `$images`: side => file name, built in inventory order; a later file of the same side replaces the earlier one in place. */
  function ImagesFor(imageFiles: seq<string>, accnum: string): Entries
  {
    if imageFiles == [] then []
    else
      var prev := ImagesFor(imageFiles[..|imageFiles| - 1], accnum);
      var image := imageFiles[|imageFiles| - 1];
      match SideOf(accnum, image)
      case Some(side) => Put(prev, side, image)
      case None => prev
  }

  /** The loop of export_record that fills `$images`. */
  method CollectImages(imageFiles: seq<string>, accnum: string) returns (images: Entries)
    ensures images == ImagesFor(imageFiles, accnum)
  {
    images := [];
    for i := 0 to |imageFiles|
      invariant images == ImagesFor(imageFiles[..i], accnum)
    {
      assert imageFiles[..i + 1][..i] == imageFiles[..i];
      var image := imageFiles[i];
      var side := SideOf(accnum, image);
      if side.Some? {
        images := Put(images, side.value, image);
      }
    }
    assert imageFiles[..|imageFiles|] == imageFiles;
  }

  /** The last file of the list whose side is `side`, if any. */
  function LastOfSide(imageFiles: seq<string>, accnum: string, side: string): Option<string>
  {
    LastWhere(imageFiles, ShowsSide(accnum, side))
  }

  /** The test "is an image of accnum with side `side`". */
  function ShowsSide(accnum: string, side: string): string -> bool
  {
    image => SideOf(accnum, image) == Some(side)
  }

  /** Each side appears once, and its file is the last one of that side in the inventory. */
  lemma {:induction false} ImagesForLastWins(imageFiles: seq<string>, accnum: string, side: string)
    ensures UniqueKeys(ImagesFor(imageFiles, accnum))
    ensures Get(ImagesFor(imageFiles, accnum), side) == LastOfSide(imageFiles, accnum, side)
  {
    if imageFiles != [] {
      var init := imageFiles[..|imageFiles| - 1];
      var image := imageFiles[|imageFiles| - 1];
      ImagesForLastWins(init, accnum, side);
      match SideOf(accnum, image)
      case Some(s) =>
        PutUnique(ImagesFor(init, accnum), s, image);
        GetPut(ImagesFor(init, accnum), s, image, side);
      case None =>
    }
  }

  /** A side is a key of `$images` exactly when some file of the inventory is an image of that side. */
  lemma {:induction false} ImagesForKeys(imageFiles: seq<string>, accnum: string, side: string)
    ensures side in Keys(ImagesFor(imageFiles, accnum)) <==>
      exists i :: 0 <= i < |imageFiles| && SideOf(accnum, imageFiles[i]) == Some(side)
  {
    ImagesForLastWins(imageFiles, accnum, side);
    GetIsIn(ImagesFor(imageFiles, accnum), side);
    if exists i :: 0 <= i < |imageFiles| && SideOf(accnum, imageFiles[i]) == Some(side) {
      var i :| 0 <= i < |imageFiles| && SideOf(accnum, imageFiles[i]) == Some(side);
      LastOfSideFinds(imageFiles, accnum, side, i);
    }
    if LastOfSide(imageFiles, accnum, side).Some? {
      var i := LastOfSideIndex(imageFiles, accnum, side);
    }
  }

  lemma {:induction false} LastOfSideFinds(imageFiles: seq<string>, accnum: string, side: string, i: nat)
    requires i < |imageFiles| && SideOf(accnum, imageFiles[i]) == Some(side)
    ensures LastOfSide(imageFiles, accnum, side).Some?
  {
    LastWhereFinds(imageFiles, ShowsSide(accnum, side), i);
  }

  lemma {:induction false} LastOfSideIndex(imageFiles: seq<string>, accnum: string, side: string) returns (i: nat)
    requires LastOfSide(imageFiles, accnum, side).Some?
    ensures i < |imageFiles| && SideOf(accnum, imageFiles[i]) == Some(side)
  {
    i := LastWhereIndex(imageFiles, ShowsSide(accnum, side));
  }

  /** The collection year: the first dot-separated piece of the accession number. */
  function YearOf(accnum: string): string
  {
    Segment(accnum, '.', 0)
  }

  /** When the accession number begins with four digits and a dot (or is four digits), those digits are its year. */
  lemma {:induction false} YearFromPrefix(accnum: string, p: string)
    requires |p| == 4 && AllDigits(p) && StartsWith(accnum + ".", p + ".")
    ensures YearOf(accnum) == p
  {
    assert '.' !in p by {
      forall k | 0 <= k < |p| ensures p[k] != '.' { assert IsDigit(p[k]); }
    }
    if |accnum| == 4 {
      assert accnum == (accnum + ".")[..4] == p;
      FirstSegment(p, "", '.');
    } else {
      var h := accnum + ".";
      assert h[..5] == p + ".";
      assert accnum[..4] == h[..5][..4];
      assert accnum[4] == h[..5][4];
      assert accnum == p + ['.'] + accnum[5..];
      FirstSegment(p, accnum[5..], '.');
    }
  }

  lemma {:induction false} YearOfImageName(accnum: string, side: string, image: string)
    requires image == accnum + "." + side + NoScale
    requires |image| >= 5 && AllDigits(image[..4]) && image[4] == '.'
    ensures YearOf(accnum) == image[..4]
  {
    var head := accnum + ".";
    assert image[..|head|] == head;
    var p := image[..4];
    assert forall k :: 0 <= k < 4 ==> image[k] == p[k] && image[k] != '.';
    assert image[|accnum|] == '.';
    assert head[..5] == image[..5] == p + ".";
    YearFromPrefix(accnum, p);
  }

  /** An accession number with an image in the inventory has a four-digit collection year. */
  lemma {:induction false} MatchedYearIsFourDigits(accnum: string, image: string)
    requires IsImageName(image) && SideOf(accnum, image).Some?
    ensures |YearOf(accnum)| == 4 && AllDigits(YearOf(accnum))
  {
    var side := SideOf(accnum, image).value;
    ImageNameOneLine(image);
    SideOfIff(accnum, image, side);
    YearOfImageName(accnum, side, image);
  }
}
