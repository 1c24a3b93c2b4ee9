/**
 From the bytes of a generated document to an incident: the tracking URL a reader finds in the PDF, or in the
 relationships of the Word or Excel file, is the token's link, and fetching it raises the token's incident.
 */
module TriggerDocuments {
  import opened Bytes
  import opened Options
  import opened Pdf
  import opened PdfPaths
  import opened PdfText
  import opened TriggerPipeline
  import opened Triggers
  import opened Units
  import Xml
  import Zip

  predicate Printable(s: string) {
    forall c <- s :: ' ' <= c <= '~'
  }

  lemma PrintableConcat(a: string, b: string)
    requires Printable(a) && Printable(b)
    ensures Printable(a + b)
  {
  }

  lemma IdPrintable(id: string)
    requires IsTokenId(id)
    ensures Printable(id)
  {
  }

  lemma PixelLinkPrintable(ctx: Context)
    requires IsTokenId(ctx.tokenId) && Printable(ctx.gatewayOrigin)
    ensures Printable(Link(ctx, "pixel.gif").value)
  {
    IdPrintable(ctx.tokenId);
    assert Printable("/") && Printable("pixel.gif");
    hide Printable, IsTokenId;
    PrintableConcat(ctx.gatewayOrigin, "/");
    PrintableConcat(ctx.gatewayOrigin + "/", ctx.tokenId);
    PrintableConcat(ctx.gatewayOrigin + "/" + ctx.tokenId, "/");
    PrintableConcat(ctx.gatewayOrigin + "/" + ctx.tokenId + "/", "pixel.gif");
  }

  lemma PrintableUnits(s: string)
    requires Printable(s)
    ensures forall u <- Ascii(s) :: 0x20 <= u < 0x7F
  {
    forall u <- Ascii(s)
      ensures 0x20 <= u < 0x7F
    {
      var i :| 0 <= i < |s| && Ascii(s)[i] == u;
      assert s[i] in s;
    }
  }

  /** Fetching the link, with any text appended, raises the incident of the token. */
  ghost predicate LinkFires(url: string, t: TokenType, id: string, domains: seq<string>) {
    forall appended: string ::
      var (host, target) := SentFor(url + appended);
      && RequestEvent(Some(host), target, domains).Some?
      && Fires(RequestEvent(Some(host), target, domains).value, t, id, domains)
  }

  lemma PixelLinkFires(t: TokenType, ctx: Context, domains: seq<string>)
    requires t in {WordDoc, ExcelDoc, PdfDoc}
    requires IsTokenId(ctx.tokenId) && ApexOrigin(ctx.gatewayOrigin, domains)
    ensures Link(ctx, "pixel.gif") in Generate(t, ctx)
    ensures LinkFires(Link(ctx, "pixel.gif").value, t, ctx.tokenId, domains)
  {
    hide Fires, RequestEvent, SentFor, IsTokenId, ApexOrigin, Link;
    assert Generate(t, ctx)[0] == Link(ctx, "pixel.gif");
    LinkIsUrl(ctx, "pixel.gif");
    hide Generate;
    forall appended: string
      ensures var (host, target) := SentFor(Link(ctx, "pixel.gif").value + appended);
        && RequestEvent(Some(host), target, domains).Some?
        && Fires(RequestEvent(Some(host), target, domains).value, t, ctx.tokenId, domains)
    {
      FetchFires(t, ctx, Link(ctx, "pixel.gif"), appended, domains);
    }
  }

  lemma LinkIsUrl(ctx: Context, action: string)
    ensures Link(ctx, action).kind == Url
  {
  }

  // ----- the PDF -----

  /** The open action and the link of a generated PDF lead to the token's incident. */
  lemma PdfFires(ctx: Context, title: Str, bodyText: Str, domains: seq<string>)
    requires IsTokenId(ctx.tokenId) && ApexOrigin(ctx.gatewayOrigin, domains) && Printable(ctx.gatewayOrigin)
    requires AllFit(Offsets(TrackingObjects(title, bodyText, Ascii(Link(ctx, "pixel.gif").value))))
    ensures var url := Link(ctx, "pixel.gif").value;
      && OpenActionUri(Latin1(Document(TrackingObjects(title, bodyText, Ascii(url))))) == Some(Ascii(url))
      && LinkUri(Latin1(Document(TrackingObjects(title, bodyText, Ascii(url))))) == Some(Ascii(url))
      && LinkFires(url, PdfDoc, ctx.tokenId, domains)
  {
    hide AllFit, Offsets, TrackingObjects, OpenActionUri, LinkUri, Document, Latin1, LinkFires, Link, Ascii, Printable,
         IsTokenId, ApexOrigin;
    var url := Link(ctx, "pixel.gif").value;
    PixelLinkPrintable(ctx);
    PrintableUnits(url);
    TrackerReached(title, bodyText, Ascii(url));
    LinkReached(title, bodyText, Ascii(url));
    PixelLinkFires(PdfDoc, ctx, domains);
  }

  // ----- the Word and Excel files -----

  const RELATIONSHIPS := "http://schemas.openxmlformats.org/officeDocument/2006/relationships/"

  /** The relationships part up to the address: of the picture in a Word file, of the link in an Excel file. */
  function RelsOpen(t: TokenType): string {
    "<?xml version=\"1.0\" encoding=\"UTF-8\" standalone=\"yes\"?>\n"
    + "<Relationships xmlns=\"http://schemas.openxmlformats.org/package/2006/relationships\">\n"
    + "<Relationship Id=\"" + (if t == WordDoc then "rIdPix" else "rIdLink") + "\" Type=\"" + RELATIONSHIPS
    + (if t == WordDoc then "image" else "hyperlink") + "\" Target=\""
  }

  const RELS_CLOSE := " TargetMode=\"External\"/>\n</Relationships>"

  function Rels(t: TokenType, url: Str): Str {
    Ascii(RelsOpen(t)) + Xml.EscapeXml(url) + [Xml.QUOT] + Ascii(RELS_CLOSE)
  }

  /** The first element and its attributes before the address, as a reader of that part expects them. */
  function FirstRelationship(t: TokenType): string {
    var office := "http://schemas.openxmlformats.org/officeDocument/2006/relationships/";
    "<?xml version=\"1.0\" encoding=\"UTF-8\" standalone=\"yes\"?>\n"
    + "<Relationships xmlns=\"http://schemas.openxmlformats.org/package/2006/relationships\">\n"
    + "<Relationship Id=\"" + (if t == WordDoc then "rIdPix" else "rIdLink") + "\" Type=\"" + office
    + (if t == WordDoc then "image" else "hyperlink") + "\" Target=\""
  }

  /** What a reader of that part takes for the address, if it is external. */
  function TargetOf(t: TokenType, part: seq<byte>): Option<Str> {
    var text: Str := part;
    match Expect<unit>(text, Ascii(FirstRelationship(t))) case None => None case Some(value) =>
    match Xml.ReadAttribute(value) case None => None case Some((target, rest)) =>
    match Expect(rest, Ascii(" TargetMode=\"External\"/>")) case None => None case Some(_) => Some(target)
  }

  lemma {:induction false} EscapeStaysAscii(s: Str)
    requires forall u <- s :: u < 0x80
    ensures forall u <- Xml.EscapeXml(s) :: u < 0x80
    decreases |s|
  {
    hide Xml.EscapeXml;
    if s == [] {
      Xml.EscEmpty();
    } else {
      assert s[0] in s && forall u <- s[1..] :: u in s;
      EscapeStaysAscii(s[1..]);
      Xml.EscFirst(s);
      UnitStaysAscii(s[0]);
    }
  }

  lemma UnitStaysAscii(u: unit)
    requires u < 0x80
    ensures forall v <- Xml.EscUnit(u) :: v < 0x80
  {
    AsciiIsAscii("&amp;");
    AsciiIsAscii("&lt;");
    AsciiIsAscii("&gt;");
    AsciiIsAscii("&quot;");
    hide Ascii;
  }

  lemma {:induction false} PrintableIsXml(s: Str)
    requires forall u <- s :: 0x20 <= u < 0x7F
    ensures Xml.XmlText(s)
    decreases |s|
  {
    if s != [] {
      assert s[0] in s && forall u <- s[1..] :: u in s;
      PrintableIsXml(s[1..]);
    }
  }

  lemma TargetBack(t: TokenType, url: Str)
    requires forall u <- url :: 0x20 <= u < 0x7F
    ensures TargetOf(t, Latin1(Rels(t, url))) == Some(url)
  {
    hide *;
    var front, close := Ascii(RelsOpen(t)), Ascii(RELS_CLOSE);
    var value := Xml.EscapeXml(url) + [Xml.QUOT] + close;
    RelsAscii(t, url);
    assert front + Xml.EscapeXml(url) + [Xml.QUOT] + close == front + value;
    Latin1Same(Rels(t, url));
    ExpectBack<unit>(front, value);
    PrintableIsXml(url);
    Xml.RecoveredIff(url, close);
    assert Xml.ReadAttribute(value) == Some((url, close)) by {
      NoBreaks(url);
    }
    TargetRead(t, Latin1(Rels(t, url)), value);
  }

  lemma RelsAscii(t: TokenType, url: Str)
    requires forall u <- url :: u < 0x80
    ensures Rels(t, url) == Ascii(RelsOpen(t)) + Xml.EscapeXml(url) + [Xml.QUOT] + Ascii(RELS_CLOSE)
    ensures forall u <- Rels(t, url) :: u < 0x80
  {
    hide Ascii, RelsOpen, Xml.EscapeXml;
    EscapeStaysAscii(url);
    AsciiIsAscii(RelsOpen(t));
    AsciiIsAscii(RELS_CLOSE);
  }

  lemma NoBreaks(s: Str)
    requires forall u <- s :: 0x20 <= u < 0x7F
    ensures forall u <- s :: !Xml.IsBreak(u)
  {
  }

  lemma TargetRead(t: TokenType, part: seq<byte>, value: Str)
    requires Expect<unit>(part, Ascii(RelsOpen(t))) == Some(value) && Xml.ReadAttribute(value).Some?
    requires Xml.ReadAttribute(value).value.1 == Ascii(RELS_CLOSE)
    ensures TargetOf(t, part) == Some(Xml.ReadAttribute(value).value.0)
  {
    ExternalRead();
    hide Ascii, Xml.ReadAttribute, Expect;
    assert RelsOpen(t) == FirstRelationship(t);
  }

  lemma ExternalRead()
    ensures Expect(Ascii(RELS_CLOSE), Ascii(" TargetMode=\"External\"/>")).Some?
  {
  }

  // ----- the files as packages -----

  function Part(name: string, data: seq<byte>): Zip.Entry {
    Zip.Entry(AsciiBytes(name), data)
  }

  /** The name of the relationships part. */
  function RelsName(t: TokenType): string {
    if t == WordDoc then "word/_rels/document.xml.rels" else "xl/worksheets/_rels/sheet1.xml.rels"
  }

  /** The parts in the order they are written; all but the relationships come as they are. */
  function Package(t: TokenType, url: Str, others: seq<seq<byte>>): seq<Zip.Entry>
    requires |others| == 5
  {
    var rels := Part(RelsName(t), Latin1(Rels(t, url)));
    if t == WordDoc then
      [Part("[Content_Types].xml", others[0]), Part("_rels/.rels", others[1]), rels,
       Part("word/document.xml", others[2])]
    else
      [Part("[Content_Types].xml", others[0]), Part("_rels/.rels", others[1]), Part("xl/workbook.xml", others[2]),
       Part("xl/_rels/workbook.xml.rels", others[3]), Part("xl/worksheets/sheet1.xml", others[4]), rels]
  }

  /** The contents of the first part of that name. */
  function FindPart(es: seq<Zip.Entry>, name: seq<byte>): Option<seq<byte>> {
    if es == [] then None else if es[0].name == name then Some(es[0].data) else FindPart(es[1..], name)
  }

  lemma {:induction false} FindPartAt(es: seq<Zip.Entry>, k: nat, name: seq<byte>)
    requires k < |es| && es[k].name == name && forall i | 0 <= i < k :: es[i].name != name
    ensures FindPart(es, name) == Some(es[k].data)
    decreases k
  {
    if k > 0 {
      FindPartAt(es[1..], k - 1, name);
    }
  }

  lemma RelsFound(t: TokenType, url: Str, others: seq<seq<byte>>)
    requires |others| == 5
    ensures FindPart(Package(t, url, others), AsciiBytes(RelsName(t))) == Some(Latin1(Rels(t, url)))
  {
    hide Rels, Latin1, AsciiBytes, FindPart;
    NameLength("[Content_Types].xml");
    NameLength("_rels/.rels");
    NameLength("xl/workbook.xml");
    NameLength("xl/_rels/workbook.xml.rels");
    NameLength("xl/worksheets/sheet1.xml");
    NameLength(RelsName(t));
    FindPartAt(Package(t, url, others), if t == WordDoc then 2 else 5, AsciiBytes(RelsName(t)));
  }

  lemma NameLength(name: string)
    ensures |AsciiBytes(name)| == |name|
  {
  }

  /**
   * Whoever unpacks a generated Word or Excel file finds the link in its relationships part, and fetching that
   * raises the token's incident.
   */
  lemma OfficeFires(t: TokenType, ctx: Context, img: seq<byte>, others: seq<seq<byte>>, domains: seq<string>)
    requires t in {WordDoc, ExcelDoc} && |others| == 5
    requires IsTokenId(ctx.tokenId) && ApexOrigin(ctx.gatewayOrigin, domains) && Printable(ctx.gatewayOrigin)
    requires Zip.IsArchive(img, Package(t, Ascii(Link(ctx, "pixel.gif").value), others))
    ensures var url := Link(ctx, "pixel.gif").value;
      && Zip.ReadZip(img).Some?
      && var name := if t == WordDoc then "word/_rels/document.xml.rels" else "xl/worksheets/_rels/sheet1.xml.rels";
         var part := FindPart(Zip.ReadZip(img).value, AsciiBytes(name));
         part.Some? && TargetOf(t, part.value) == Some(Ascii(url)) && LinkFires(url, t, ctx.tokenId, domains)
  {
    hide Zip.IsArchive, Zip.ReadZip, TargetOf, Rels, Latin1, LinkFires, Link, Ascii, Printable, IsTokenId, ApexOrigin,
         Package, FindPart, AsciiBytes;
    var url := Link(ctx, "pixel.gif").value;
    Zip.ReadBack(img, Package(t, Ascii(url), others));
    RelsFound(t, Ascii(url), others);
    PixelLinkPrintable(ctx);
    PrintableUnits(url);
    TargetBack(t, Ascii(url));
    PixelLinkFires(t, ctx, domains);
  }
}
