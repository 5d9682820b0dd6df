/**
 * The `digRep` METS section export_record writes for a record with images: one file group
 * per side, each file pointing at the IIIF server or the image archive under the
 * collection-year bucket of the accession number.
 */
module DigRep {
  import opened Common
  import opened Assoc
  import opened Xml
  import opened Inventory

  /** The value of a decimal digit string. */
  function DecimalValue(s: string): nat
    requires AllDigits(s)
  {
    if s == [] then 0 else DecimalValue(s[..|s| - 1]) * 10 + (s[|s| - 1] as int - '0' as int)
  }

  lemma {:induction false} DecimalValue4(s: string)
    requires |s| == 4 && AllDigits(s)
    ensures DecimalValue(s) ==
      1000 * (s[0] as int - 48) + 100 * (s[1] as int - 48) + 10 * (s[2] as int - 48) + (s[3] as int - 48)
  {
    var s3 := s[..3];
    var s2 := s3[..2];
    var s1 := s2[..1];
    assert s3[2] == s[2] && s2[1] == s[1] && s1[0] == s[0];
    assert s1[..0] == [];
    assert DecimalValue(s1) == s[0] as int - 48;
    assert DecimalValue(s2) == DecimalValue(s1) * 10 + (s[1] as int - 48);
    assert DecimalValue(s3) == DecimalValue(s2) * 10 + (s[2] as int - 48);
  }

  /**
   * The image directory of a four-digit collection year: the switch of export_record, read
   * as the numeric ranges its cases spell out. Years from 2050 on match no case.
   */
  function YearBucket(year: string): Option<string>
  {
    if |year| == 4 && AllDigits(year) then
      var y := DecimalValue(year);
      if y < 1900 then Some("00001899")
      else if y < 1950 then Some("19001949")
      else if y < 2000 then Some("19501999")
      else if y < 2050 then Some("20002049")
      else None
    else None
  }

  /** A bucket is named by the first and last year it holds, and every year before 2050 has one. */
  lemma {:induction false} YearBucketRange(year: string)
    requires |year| == 4 && AllDigits(year)
    ensures YearBucket(year).None? <==> DecimalValue(year) >= 2050
    ensures YearBucket(year).Some? ==>
      var b := YearBucket(year).value;
      |b| == 8 && AllDigits(b) && DecimalValue(b[..4]) <= DecimalValue(year) <= DecimalValue(b[4..])
  {
    DecimalValue4(year);
    if YearBucket(year).Some? {
      var b := YearBucket(year).value;
      assert |b| == 8 && AllDigits(b);
      DecimalValue4(b[..4]);
      DecimalValue4(b[4..]);
    }
  }

  /** `$image_path`: the bucket, or the empty text an unset variable interpolates to. */
  function ImagePath(year: string): string
  {
    match YearBucket(year)
    case Some(b) => b
    case None => ""
  }

  const IiifBase: string := "https://images.numismatics.org/collectionimages%2F"
  const ArchiveBase: string := "https://numismatics.org/collectionimages/"
  const Jpeg: string := "image/jpeg"

  function IiifUrl(path: string, year: string, name: string): string
  {
    IiifBase + path + "%2F" + year + "%2F" + name
  }

  function ArchiveUrl(path: string, year: string, name: string): string
  {
    ArchiveBase + path + "/" + year + "/" + name
  }

  /** A `mets:file` with its `mets:FLocat`; every file but the IIIF one declares a JPEG MIME type. */
  function FileEntry(use: string, href: string): Node
  {
    var attrs := if use == "iiif" then [("USE", use)] else [("USE", use), ("MIMETYPE", Jpeg)];
    Element("mets:file", attrs, [Element("mets:FLocat", [("LOCYPE", "URL"), ("xlink:href", href)], [])])
  }

  /** The four files of the obverse or the reverse: IIIF, archive, reference (350 px) and thumbnail (175 px). */
  function SideGroup(groupUse: string, accnum: string, side: string, path: string, year: string): Node
  {
    var stem := accnum + "." + side;
    Element("mets:fileGrp", [("USE", groupUse)], [
      FileEntry("iiif", IiifUrl(path, year, stem + NoScale)),
      FileEntry("archive", ArchiveUrl(path, year, stem + NoScale)),
      FileEntry("reference", ArchiveUrl(path, year, stem + ".width350.jpg")),
      FileEntry("thumbnail", ArchiveUrl(path, year, stem + ".width175.jpg"))])
  }

  /** Any other side: one IIIF file, the group's USE being the fourth dot-separated piece of the file name. */
  function OtherGroup(file: string, path: string, year: string): Node
  {
    Element("mets:fileGrp", [("USE", Segment(file, '.', 3))], [FileEntry("iiif", IiifUrl(path, year, file))])
  }

  function OtherGroups(images: Entries, path: string, year: string): seq<Node>
  {
    if images == [] then []
    else
      var (k, v) := images[|images| - 1];
      OtherGroups(images[..|images| - 1], path, year) + (if k != "obv" && k != "rev" then [OtherGroup(v, path, year)] else [])
  }

  /** The obverse group, then the reverse group, each when `$images` has that side. */
  function FaceGroups(accnum: string, images: Entries, path: string, year: string): seq<Node>
  {
    (if "obv" in Keys(images) then [SideGroup("obverse", accnum, "obv", path, year)] else []) +
    (if "rev" in Keys(images) then [SideGroup("reverse", accnum, "rev", path, year)] else [])
  }

  /** The file groups of `mets:fileSec`: obverse, reverse, then the other sides in `$images` order. */
  function FileGroups(accnum: string, images: Entries): seq<Node>
  {
    var year := YearOf(accnum);
    var path := ImagePath(year);
    FaceGroups(accnum, images, path, year) + OtherGroups(images, path, year)
  }

  const Namespaces: Entries := [
    ("xmlns", "http://nomisma.org/nuds"),
    ("xmlns:xs", "http://www.w3.org/2001/XMLSchema"),
    ("xmlns:xlink", "http://www.w3.org/1999/xlink"),
    ("xmlns:mets", "http://www.loc.gov/METS/"),
    ("xmlns:tei", "http://www.tei-c.org/ns/1.0")]

  function DigRepOf(accnum: string, images: Entries): Node
  {
    Element("digRep", Namespaces, [Element("mets:fileSec", [], FileGroups(accnum, images))])
  }

  /** The XMLWriter session of export_record that writes `<accnum>-images.xml`. */
  method WriteDigRep(accnum: string, images: Entries) returns (digRep: Node)
    ensures digRep == DigRepOf(accnum, images)
  {
    var year := YearOf(accnum);
    var path := ImagePath(year);
    var groups := FaceGroups(accnum, images, path, year);
    var fixed := groups;
    for i := 0 to |images|
      invariant groups == fixed + OtherGroups(images[..i], path, year)
    {
      assert images[..i + 1][..i] == images[..i];
      var (k, v) := images[i];
      if k != "obv" && k != "rev" {
        groups := groups + [OtherGroup(v, path, year)];
      }
    }
    assert images[..|images|] == images;
    assert groups == FileGroups(accnum, images);
    digRep := Element("digRep", Namespaces, [Element("mets:fileSec", [], groups)]);
  }

  function OneIf(b: bool): nat { if b then 1 else 0 }

  lemma {:induction false} OtherGroupsCount(images: Entries, path: string, year: string)
    requires UniqueKeys(images)
    ensures |OtherGroups(images, path, year)| + OneIf("obv" in Keys(images)) + OneIf("rev" in Keys(images)) == |images|
  {
    if images != [] {
      var init := images[..|images| - 1];
      var k := images[|images| - 1].0;
      assert UniqueKeys(init);
      OtherGroupsCount(init, path, year);
      assert Keys(images) == Keys(init) + [k];
      assert k !in Keys(init);
    }
  }

  /** With the distinct keys of `$images`, there is exactly one file group per side. */
  lemma {:induction false} FileGroupsCount(accnum: string, images: Entries)
    requires UniqueKeys(images)
    ensures |FileGroups(accnum, images)| == |images|
  {
    var year := YearOf(accnum);
    OtherGroupsCount(images, ImagePath(year), year);
  }

  lemma {:induction false} SplitOnDot(p: string, t: string)
    requires '.' !in p
    ensures SplitOn(p + "." + t, ".") == [p] + SplitOn(t, ".")
  {
    SplitOnPrefix(p, "." + t, ".");
    assert p + "." + t == p + ("." + t);
    assert StartsWith("." + t, ".");
    assert ("." + t)[1..] == t;
    assert p + "" == p;
  }

  lemma {:induction false} SplitOnFourth(a: string, b: string, c: string, d: string, t: string)
    requires '.' !in a && '.' !in b && '.' !in c && '.' !in d
    ensures Segment(a + "." + b + "." + c + "." + d + "." + t, '.', 3) == d
  {
    var r3 := d + "." + t;
    var r2 := c + "." + r3;
    var r1 := b + "." + r2;
    SplitOnDot(d, t);
    SplitOnDot(c, r3);
    SplitOnDot(b, r2);
    SplitOnDot(a, r1);
    DotAssoc(a + "." + b + "." + c, d, t);
    DotAssoc(a + "." + b, c, r3);
    DotAssoc(a, b, r2);
    assert ['.'] == ".";
  }

  lemma {:induction false} DotAssoc(x: string, y: string, z: string)
    ensures x + "." + y + "." + z == x + "." + (y + "." + z)
  {
  }

  /**
   * For a three-part accession number (`1944.100.1`) and a side without a dot, the USE of an
   * extra image's group is the side itself.
   */
  lemma {:induction false} OtherGroupUse(a: string, b: string, c: string, side: string)
    requires '.' !in a && '.' !in b && '.' !in c && '.' !in side
    ensures Segment(a + "." + b + "." + c + "." + side + NoScale, '.', 3) == side
  {
    var t := "noscale.jpg";
    assert NoScale == "." + t;
    assert a + "." + b + "." + c + "." + side + NoScale == a + "." + b + "." + c + "." + side + "." + t;
    SplitOnFourth(a, b, c, side, t);
  }

  /** The names written for the obverse and reverse are those of the inventory file the side was matched on. */
  lemma {:induction false} SideGroupNamesMatchedFile(accnum: string, side: string, file: string, path: string, year: string)
    requires '\n' !in file && SideOf(accnum, file) == Some(side)
    ensures SideGroup("obverse", accnum, side, path, year).children[0] == FileEntry("iiif", IiifUrl(path, year, file))
    ensures SideGroup("obverse", accnum, side, path, year).children[1] == FileEntry("archive", ArchiveUrl(path, year, file))
  {
    SideOfIff(accnum, file, side);
  }
}
