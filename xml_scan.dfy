/**
 * The embedded-XML scanner of the iSyntax tile source (`_readXML`).
 *
 * An iSyntax file starts with an XML document whose root is a `DataObject`
 * element. The scanner reads the file in chunks, counts `<DataObject` and
 * `</DataObject` tags to find where the root element closes, re-reads that
 * many bytes from the start of the file and hands them to an XML parser.
 *
 * The file is a sequence of bytes and the read cursor is a local position.
 * The chunked loop `ReadXml` is proved equal to `ReadXmlSpec`, which runs the
 * same tag search over the whole file as one buffer: chunk boundaries,
 * including ones that cut a tag in two, never change the result.
 */
module XmlScan {
  import opened Wrappers
  import opened Text
  import opened PhilipsTags
  import opened Numbers

  const InitialChunk: nat := 256
  const Chunk: nat := 65536
  /** The largest document the scanner accepts: 100 MiB. */
  const MaxXmlLength: nat := 100 * 1024 * 1024

  /** `<DataObject` in ASCII. */
  const OpenTag: seq<Byte> := [60, 68, 97, 116, 97, 79, 98, 106, 101, 99, 116]
  /** `</DataObject` in ASCII. */
  const CloseTag: seq<Byte> := [60, 47, 68, 97, 116, 97, 79, 98, 106, 101, 99, 116]
  /** Bytes kept from a buffer that holds no whole tag: the longer tag's length. */
  const Keep: nat := 12

  /** `fptr.read(n)` at cursor `pos`: at most `n` bytes, fewer at the end of the file. */
  function Read(file: seq<Byte>, pos: nat, n: nat): (chunk: seq<Byte>)
    requires pos <= |file|
    ensures |chunk| == Min(n, |file| - pos)
    ensures chunk == file[pos..pos + |chunk|]
  {
    file[pos..Min(pos + n, |file|)]
  }

  datatype TagKind = Open | Close
  datatype Hit = Hit(pos: nat, kind: TagKind)

  /**
   * The tag the scan loop acts on in buffer `data`: whichever of the two tags
   * occurs first, or None when the buffer holds neither.
   */
  function NextTag(data: seq<Byte>): (h: Option<Hit>)
    ensures h.Some? ==> h.value.pos + TagLength(h.value.kind) <= |data|
  {
    var o := Find(data, OpenTag);
    var c := Find(data, CloseTag);
    FindFacts(data, OpenTag);
    FindFacts(data, CloseTag);
    if o.Some? && (c.None? || o.value < c.value) then Some(Hit(o.value, Open))
    else if c.Some? && (o.None? || c.value < o.value) then Some(Hit(c.value, Close))
    else None
  }

  function TagLength(k: TagKind): nat {
    if k == Open then |OpenTag| else |CloseTag|
  }

  function TagBytes(k: TagKind): seq<Byte> {
    if k == Open then OpenTag else CloseTag
  }

  /**
   * The tag `NextTag` picks is a whole occurrence with no tag of either kind
   * before it, and None means the buffer holds no whole tag.
   */
  lemma NextTagFacts(data: seq<Byte>)
    ensures var h := NextTag(data);
      && (h.Some? ==> OccursAt(data, TagBytes(h.value.kind), h.value.pos))
      && (h.Some? ==> forall j :: 0 <= j < h.value.pos ==>
            !OccursAt(data, OpenTag, j) && !OccursAt(data, CloseTag, j))
      && (h.None? ==> forall j :: !OccursAt(data, OpenTag, j) && !OccursAt(data, CloseTag, j))
  {
    var o := Find(data, OpenTag);
    FindFacts(data, OpenTag);
    FindFacts(data, CloseTag);
    TagsDiffer(data, if o.Some? then o.value else 0);
  }

  /** The tag that starts at offset `i` of the file, if any. */
  function TagAt(file: seq<Byte>, i: nat): (k: Option<TagKind>)
    ensures k.Some? ==> i + TagLength(k.value) <= |file|
  {
    if i + |OpenTag| <= |file| && MatchFrom(file, OpenTag, i, 0) then Some(Open)
    else if i + |CloseTag| <= |file| && MatchFrom(file, CloseTag, i, 0) then Some(Close)
    else None
  }

  /** `TagAt` names the tag `OccursAt` finds at that offset. */
  lemma TagAtOccurs(file: seq<Byte>, i: nat)
    ensures TagAt(file, i) == Some(Open) <==> OccursAt(file, OpenTag, i)
    ensures TagAt(file, i) == Some(Close) <==> OccursAt(file, CloseTag, i)
  {
    MatchOccurs(file, OpenTag, i);
    MatchOccurs(file, CloseTag, i);
    TagsDiffer(file, i);
  }

  /**
   * Where a scan stopped: just past the tag that closed the root, or, having
   * run out of tags, where the chunked loop's cursor stops, 12 bytes before
   * the end of the file. `seen` records whether an open tag was counted.
   */
  datatype ScanEnd = Balanced(end: nat) | Exhausted(end: nat, seen: bool)
  {
    /** The loop's `any` flag when the scan stops. */
    predicate SawOpen() {
      Balanced? || seen
    }
  }

  /**
   * The scan over the whole file as one buffer, from offset `at` at nesting
   * depth `depth`: each `<DataObject` adds one, each `</DataObject` takes one
   * away, and the close tag that brings the depth to zero ends the scan.
   */
  function ScanFrom(file: seq<Byte>, at: nat, depth: int, seen: bool): ScanEnd
    requires at <= |file|
  {
    Scan(file, at, at, depth, seen)
  }

  /** The scan looking for the next tag at offset `i`, the last tag having ended at `start`. */
  function Scan(file: seq<Byte>, start: nat, i: nat, depth: int, seen: bool): ScanEnd
    requires start <= i <= |file|
    decreases |file| - i
  {
    if i == |file| then Exhausted(Max(start, |file| - Keep), seen)
    else match TagAt(file, i)
      case None => Scan(file, start, i + 1, depth, seen)
      case Some(Open) => Scan(file, i + |OpenTag|, i + |OpenTag|, depth + 1, true)
      case Some(Close) =>
        if depth - 1 == 0 then Balanced(i + |CloseTag|)
        else Scan(file, i + |CloseTag|, i + |CloseTag|, depth - 1, seen)
  }

  /** Offsets where no tag starts are passed over. */
  lemma {:induction false} ScanSkip(file: seq<Byte>, start: nat, i: nat, to: nat, depth: int, seen: bool)
    requires start <= i <= to <= |file|
    requires forall j :: i <= j < to ==> TagAt(file, j).None?
    ensures Scan(file, start, i, depth, seen) == Scan(file, start, to, depth, seen)
    decreases |file| - i
  {
    if i < to {
      ScanSkip(file, start, i + 1, to, depth, seen);
    }
  }

  /** Where the last tag ended matters only through where an exhausted scan stops. */
  lemma {:induction false} ScanRestart(file: seq<Byte>, s1: nat, s2: nat, i: nat, depth: int, seen: bool)
    requires s1 <= i && s2 <= i <= |file|
    requires Max(s1, |file| - Keep) == Max(s2, |file| - Keep)
    ensures Scan(file, s1, i, depth, seen) == Scan(file, s2, i, depth, seen)
    decreases |file| - i
  {
    if i < |file| && TagAt(file, i).None? {
      ScanRestart(file, s1, s2, i + 1, depth, seen);
    }
  }

  /** What `_readXML` leaves behind on success. */
  datatype Metadata = Metadata(xmlLength: nat, tree: Container, philips: Record, philipsShort: Record)

  datatype XmlError =
    | NoInitialTag            // no `<DataObject` in the first 256 bytes
    | NoXml                   // the scan counted no open tag
    | TooLarge(length: nat)   // the document would exceed 100 MiB
    | ParseFailed             // the XML parser rejected the bytes
    | FlattenFailed(error: TagError)  // philipsTag raised
    | NoRecords               // philipsTag returned an empty list; indexing it raises

  /** The steps of `_readXML` after the document has been parsed. */
  function Flatten(xmlLength: nat, tree: Container): Result<Metadata, XmlError> {
    match PhilipsTag(tree, false)
    case Failure(e) => Failure(FlattenFailed(e))
    case Success(full) =>
      if |full| == 0 then Failure(NoRecords)
      else match PhilipsTag(tree, true)
        case Failure(e) => Failure(FlattenFailed(e))
        case Success(short) =>
          if |short| == 0 then Failure(NoRecords)
          else Success(Metadata(xmlLength, tree, full[0], short[0]))
  }

  /** The first `InitialChunk` bytes of the file. */
  function Probe(file: seq<Byte>): seq<Byte> {
    file[..Min(InitialChunk, |file|)]
  }

  /** The parsed document: its length as the scanner counted it, and its tree. */
  datatype Document = Document(xmlLength: nat, tree: Container)

  /** The part of `_readXML` up to the parse, with the whole file as one buffer. */
  function ReadDocumentSpec(file: seq<Byte>, parse: seq<Byte> -> Option<Container>): Result<Document, XmlError> {
    if Find(Probe(file), OpenTag).None? then Failure(NoInitialTag)
    else
      var scan := ScanFrom(file, 0, 0, false);
      if !scan.SawOpen() then Failure(NoXml)
      else
      var length := scan.end + 1;
      if length > MaxXmlLength then Failure(TooLarge(length))
      else match parse(file[..Min(length, |file|)])
        case None => Failure(ParseFailed)
        case Some(tree) => Success(Document(length, tree))
  }

  /** `_readXML` with the whole file as one buffer. */
  function ReadXmlSpec(file: seq<Byte>, parse: seq<Byte> -> Option<Container>): Result<Metadata, XmlError> {
    match ReadDocumentSpec(file, parse)
    case Failure(e) => Failure(e)
    case Success(doc) => Flatten(doc.xmlLength, doc.tree)
  }

  /**
   * `_readXML`: a 256-byte probe for the root's open tag, then the scan for
   * where the root closes, the 100 MiB limit, the parser and the flattening.
   */
  method ReadXml(file: seq<Byte>, parse: seq<Byte> -> Option<Container>) returns (r: Result<Metadata, XmlError>)
    ensures r == ReadXmlSpec(file, parse)
  {
    var pos: nat := Min(InitialChunk, |file|);
    var data := file[..pos];
    if Find(data, OpenTag).None? {
      return Failure(NoInitialTag);
    }
    var xmllen, any := ScanDocument(file);
    if !any {
      return Failure(NoXml);
    }
    xmllen := xmllen + 1;
    if xmllen > MaxXmlLength {
      return Failure(TooLarge(xmllen));
    }
    var xmltree := Read(file, 0, xmllen);
    match parse(xmltree)
    case None =>
      r := Failure(ParseFailed);
    case Some(tree) =>
      assert ReadDocumentSpec(file, parse) == Success(Document(xmllen, tree));
      r := Flatten(xmllen, tree);
  }

  /**
   * The counting loop of `_readXML`, after the probe: `data` is the part of
   * the bytes read so far that lies past offset `xmllen`; a buffer with no
   * whole tag is cut to its last 12 bytes and the next 65536-byte chunk
   * appended. The result is where the whole-file scan stops.
   */
  method ScanDocument(file: seq<Byte>) returns (xmllen: nat, any: bool)
    ensures xmllen == ScanFrom(file, 0, 0, false).end
    ensures any == ScanFrom(file, 0, 0, false).SawOpen()
  {
    var pos: nat := Min(InitialChunk, |file|);
    var data := file[..pos];
    var docount: int := 0;
    xmllen := 0;
    any := false;
    ghost var target := ScanFrom(file, 0, 0, false);
    while true
      invariant xmllen <= pos <= |file|
      invariant data == file[xmllen..pos]
      invariant ScanFrom(file, xmllen, docount, any) == target
      invariant !any ==> docount <= 0
      decreases 2 * |file| - pos - xmllen
    {
      var h;
      ghost var next, depth', seen';
      h, next, depth', seen' := LocateTag(data, file, xmllen, pos, docount, any);
      if h.Some? && h.value.kind == Open {
        any := true;
        docount := docount + 1;
        xmllen, data := Consume(data, h.value.pos + |OpenTag|, file, xmllen, pos);
        assert xmllen == next && docount == depth' && any == seen';
      } else if h.Some? {
        docount := docount - 1;
        xmllen, data := Consume(data, h.value.pos + |CloseTag|, file, xmllen, pos);
        if docount == 0 {
          return;
        }
        assert xmllen == next && docount == depth' && any == seen';
      } else {
        xmllen, data := Consume(data, Max(0, |data| - Keep), file, xmllen, pos);
        assert xmllen == next && docount == depth' && any == seen';
        var more := Read(file, pos, Chunk);
        if |more| == 0 {
          return;
        }
        data := Extend(data, more, file, xmllen, pos);
        pos := pos + |more|;
      }
    }
  }

  /** `xmllen += n; data = data[n:]` on the buffer `data == file[at..pos]`. */
  method Consume(data: seq<Byte>, n: nat, ghost file: seq<Byte>, at: nat, ghost pos: nat)
    returns (at': nat, rest: seq<Byte>)
    requires at <= pos <= |file| && data == file[at..pos] && n <= |data|
    ensures at' == at + n && rest == file[at'..pos]
  {
    at' := at + n;
    rest := data[n..];
  }

  /** `data += data2` for the chunk read at the cursor `pos`. */
  method Extend(data: seq<Byte>, more: seq<Byte>, ghost file: seq<Byte>, ghost at: nat, ghost pos: nat)
    returns (data': seq<Byte>)
    requires at <= pos && pos + |more| <= |file|
    requires data == file[at..pos] && more == file[pos..pos + |more|]
    ensures data' == file[at..pos + |more|]
  {
    data' := data + more;
  }

  /**
   * The two `find` calls at the head of each iteration and the branch they
   * select, for the buffer `data == file[at..pos]`: a whole tag in the buffer
   * takes the whole-file scan one step, and a buffer with no whole tag can be
   * cut to its last 12 bytes without changing where the scan stops.
   */
  method LocateTag(data: seq<Byte>, ghost file: seq<Byte>, ghost at: nat, ghost pos: nat, ghost depth: int, ghost seen: bool)
    returns (h: Option<Hit>, ghost next: nat, ghost depth': int, ghost seen': bool)
    requires at <= pos <= |file| && data == file[at..pos]
    ensures h.Some? ==> h.value.pos + TagLength(h.value.kind) <= |data|
    ensures h.Some? ==> next == at + h.value.pos + TagLength(h.value.kind)
    ensures h.None? ==> next == at + Max(0, |data| - Keep)
    ensures depth' == if h.None? then depth else if h.value.kind == Open then depth + 1 else depth - 1
    ensures seen' == (seen || (h.Some? && h.value.kind == Open))
    ensures h.Some? && h.value.kind == Close && depth' == 0 ==> ScanFrom(file, at, depth, seen) == Balanced(next)
    ensures h.None? && pos == |file| ==> ScanFrom(file, at, depth, seen) == Exhausted(next, seen)
    ensures !(h.Some? && h.value.kind == Close && depth' == 0) ==>
      ScanFrom(file, at, depth, seen) == ScanFrom(file, next, depth', seen')
  {
    h := NextTag(data);
    if h.Some? {
      next := at + h.value.pos + TagLength(h.value.kind);
      depth' := if h.value.kind == Open then depth + 1 else depth - 1;
      seen' := seen || h.value.kind == Open;
      ChunkHit(file, at, pos, depth, seen);
    } else {
      next := at + Max(0, |data| - Keep);
      depth', seen' := depth, seen;
      ChunkSkip(file, at, pos, depth, seen);
    }
  }

  // ---------------------------------------------------------------------------
  // Facts about the two tags

  /** No position holds both tags: they differ in their second byte. */
  lemma TagsDiffer(s: seq<Byte>, i: int)
    ensures !(OccursAt(s, OpenTag, i) && OccursAt(s, CloseTag, i))
  {
    if OccursAt(s, OpenTag, i) && i + 12 <= |s| {
      assert s[i..i + 12][1] == s[i + 1] == s[i..i + 11][1] == 68;
      assert s[i..i + 12] != CloseTag;
    }
  }

  /** No open tag starts inside a close tag: `<` is only a close tag's first byte. */
  lemma CloseBlocksOpen(file: seq<Byte>, c: nat)
    requires TagAt(file, c) == Some(Close)
    ensures forall q :: c <= q < c + |CloseTag| ==> TagAt(file, q) != Some(Open)
  {
    MatchFromPointwise(file, CloseTag, c, 0);
    forall q | c <= q < c + |CloseTag| ensures TagAt(file, q) != Some(Open) {
      MatchFromPointwise(file, OpenTag, q, 0);
      assert file[c + (q - c)] == CloseTag[q - c];
    }
  }

  /** The open tag the probe holds, at its offset in the file. */
  lemma ProbeOpen(file: seq<Byte>) returns (q: nat)
    requires Find(Probe(file), OpenTag).Some?
    ensures q + |OpenTag| <= Min(InitialChunk, |file|)
    ensures TagAt(file, q) == Some(Open)
  {
    q := Find(Probe(file), OpenTag).value;
    FindFacts(Probe(file), OpenTag);
    OccursInBuffer(file, 0, Min(InitialChunk, |file|), OpenTag, q);
    TagAtOccurs(file, q);
  }

  // ---------------------------------------------------------------------------
  // The whole-file tag search

  /** An occurrence inside the buffer `file[at..pos]` is an occurrence in the file, and back. */
  lemma OccursInBuffer(file: seq<Byte>, at: nat, pos: nat, t: seq<Byte>, j: int)
    requires at <= pos <= |file|
    requires 0 <= j && j + |t| <= pos - at
    ensures OccursAt(file[at..pos], t, j) <==> OccursAt(file, t, at + j)
  {
    var u := file[at..pos][j..j + |t|];
    var w := file[at + j..at + j + |t|];
    forall n | 0 <= n < |t| ensures u[n] == w[n] {
      assert u[n] == file[at..pos][j + n];
    }
    assert u == w;
  }

  /**
   * No tag starts in the first `n` bytes of the buffer `file[at..pos]` when
   * none occurs there and a close tag from any of them would fit in the buffer.
   */
  lemma NoTagInBuffer(file: seq<Byte>, at: nat, pos: nat, n: nat)
    requires at <= pos <= |file|
    requires n + |OpenTag| <= pos - at
    requires forall j :: 0 <= j < n ==>
      !OccursAt(file[at..pos], OpenTag, j) && !OccursAt(file[at..pos], CloseTag, j)
    ensures forall j :: at <= j < at + n ==> TagAt(file, j).None?
  {
    forall j | at <= j < at + n ensures TagAt(file, j).None? {
      OccursInBuffer(file, at, pos, OpenTag, j - at);
      OccursInBuffer(file, at, pos, CloseTag, j - at);
      TagAtOccurs(file, j);
    }
  }

  /** A whole tag found in the buffer `file[at..pos]` is a tag of the file with none before it from `at`. */
  lemma HitInFile(file: seq<Byte>, at: nat, pos: nat)
    requires at <= pos <= |file|
    requires NextTag(file[at..pos]).Some?
    ensures var h := NextTag(file[at..pos]).value;
      && TagAt(file, at + h.pos) == Some(h.kind)
      && forall j :: at <= j < at + h.pos ==> TagAt(file, j).None?
  {
    var h := NextTag(file[at..pos]).value;
    NextTagFacts(file[at..pos]);
    NoTagInBuffer(file, at, pos, h.pos);
    OccursInBuffer(file, at, pos, TagBytes(h.kind), h.pos);
    TagAtOccurs(file, at + h.pos);
  }

  /** The whole-file scan from `at` meets the tag found in `file[at..pos]` first, and goes on past it. */
  lemma ChunkHit(file: seq<Byte>, at: nat, pos: nat, depth: int, seen: bool)
    requires at <= pos <= |file|
    requires NextTag(file[at..pos]).Some?
    ensures var h := NextTag(file[at..pos]).value;
      var next := at + h.pos + TagLength(h.kind);
      && (h.kind == Open ==> ScanFrom(file, at, depth, seen) == ScanFrom(file, next, depth + 1, true))
      && (h.kind == Close && depth - 1 == 0 ==> ScanFrom(file, at, depth, seen) == Balanced(next))
      && (h.kind == Close && depth - 1 != 0 ==> ScanFrom(file, at, depth, seen) == ScanFrom(file, next, depth - 1, seen))
  {
    var h := NextTag(file[at..pos]).value;
    HitInFile(file, at, pos);
    ScanSkip(file, at, at, at + h.pos, depth, seen);
  }

  /**
   * When `file[at..pos]` holds neither tag, no tag starts in the file before
   * its last 12 bytes; when it reaches the end of the file, no tag starts
   * anywhere from `at` on.
   */
  lemma BufferHoldsNoTag(file: seq<Byte>, at: nat, pos: nat)
    requires at <= pos <= |file|
    requires NextTag(file[at..pos]).None?
    ensures forall j :: at <= j && j + Keep <= pos ==> TagAt(file, j).None?
    ensures pos == |file| ==> forall j :: at <= j ==> TagAt(file, j).None?
  {
    NextTagFacts(file[at..pos]);
    forall j | at <= j
      ensures j + |OpenTag| <= pos ==> TagAt(file, j) != Some(Open)
      ensures j + |CloseTag| <= pos ==> TagAt(file, j) != Some(Close)
    {
      TagAtOccurs(file, j);
      if j + |OpenTag| <= pos {
        OccursInBuffer(file, at, pos, OpenTag, j - at);
      }
      if j + |CloseTag| <= pos {
        OccursInBuffer(file, at, pos, CloseTag, j - at);
      }
    }
  }

  /**
   * When `file[at..pos]` holds neither tag, the whole-file scan is the same
   * from the kept suffix of its last 12 bytes; when the buffer reaches the end
   * of the file, the scan stops at that suffix.
   */
  lemma ChunkSkip(file: seq<Byte>, at: nat, pos: nat, depth: int, seen: bool)
    requires at <= pos <= |file|
    requires NextTag(file[at..pos]).None?
    ensures var m := Max(0, pos - at - Keep);
      && ScanFrom(file, at, depth, seen) == ScanFrom(file, at + m, depth, seen)
      && (pos == |file| ==> ScanFrom(file, at, depth, seen) == Exhausted(at + m, seen))
  {
    var m := Max(0, pos - at - Keep);
    BufferHoldsNoTag(file, at, pos);
    ScanSkip(file, at, at, at + m, depth, seen);
    ScanRestart(file, at, at + m, at + m, depth, seen);
    if pos == |file| {
      ScanSkip(file, at, at, |file|, depth, seen);
    }
  }

  // ---------------------------------------------------------------------------
  // What the specification promises

  /** A scan that ends balanced stops just past a `</DataObject` tag. */
  lemma {:induction false} BalancedEndsWithClose(file: seq<Byte>, start: nat, i: nat, depth: int, seen: bool)
    requires start <= i <= |file|
    requires Scan(file, start, i, depth, seen).Balanced?
    ensures var e := Scan(file, start, i, depth, seen).end;
      i + |CloseTag| <= e <= |file| && TagAt(file, e - |CloseTag|) == Some(Close)
    decreases |file| - i
  {
    if i < |file| {
      var k := TagAt(file, i);
      if k.None? {
        BalancedEndsWithClose(file, start, i + 1, depth, seen);
      } else if k.value == Open {
        BalancedEndsWithClose(file, i + |OpenTag|, i + |OpenTag|, depth + 1, true);
      } else if depth - 1 != 0 {
        BalancedEndsWithClose(file, i + |CloseTag|, i + |CloseTag|, depth - 1, seen);
      }
    }
  }

  /** A scan that runs out of tags stops within the last 12 bytes of the file. */
  lemma {:induction false} ExhaustedNearEnd(file: seq<Byte>, start: nat, i: nat, depth: int, seen: bool)
    requires start <= i <= |file|
    requires Scan(file, start, i, depth, seen).Exhausted?
    ensures var e := Scan(file, start, i, depth, seen).end; start <= e <= |file| && |file| <= e + Keep
    decreases |file| - i
  {
    if i < |file| {
      match TagAt(file, i)
      case None =>
        ExhaustedNearEnd(file, start, i + 1, depth, seen);
      case Some(Open) =>
        ExhaustedNearEnd(file, i + |OpenTag|, i + |OpenTag|, depth + 1, true);
      case Some(Close) =>
        if depth - 1 != 0 {
          ExhaustedNearEnd(file, i + |CloseTag|, i + |CloseTag|, depth - 1, seen);
        }
    }
  }

  /**
   * A scan that has an open tag ahead of it, at a depth no close tag can bring
   * to zero, counts that tag: the close tags before it cannot overlap it.
   */
  lemma {:induction false} ScanSees(file: seq<Byte>, start: nat, i: nat, depth: int, seen: bool, o: nat)
    requires start <= i <= |file|
    requires seen || (i <= o && TagAt(file, o) == Some(Open) && depth <= 0)
    ensures Scan(file, start, i, depth, seen).SawOpen()
    decreases |file| - i
  {
    if i < |file| {
      match TagAt(file, i)
      case None =>
        ScanSees(file, start, i + 1, depth, seen, o);
      case Some(Open) =>
        ScanSees(file, i + |OpenTag|, i + |OpenTag|, depth + 1, true, o);
      case Some(Close) =>
        if !seen {
          CloseBlocksOpen(file, i);
        }
        if depth - 1 != 0 {
          ScanSees(file, i + |CloseTag|, i + |CloseTag|, depth - 1, seen, o);
        }
    }
  }

  /**
   * The loop's "could not locate XML" exit is never taken: the probe found an
   * open tag, and the scan from the start of the file counts it.
   */
  lemma ProbeSeesOpen(file: seq<Byte>)
    requires Find(Probe(file), OpenTag).Some?
    ensures ScanFrom(file, 0, 0, false).SawOpen()
  {
    var o := ProbeOpen(file);
    ScanSees(file, 0, 0, 0, false, o);
  }

  /**
   * The outcomes of `_readXML` up to the parse: no document when the probe
   * lacks an open tag, when it would exceed 100 MiB, or when the parser rejects
   * it, and never for want of a counted open tag; otherwise the parser is handed exactly the first `xmllen + 1` bytes,
   * and when the root closed those bytes end one byte past its `</DataObject`.
   */
  lemma ReadDocumentOutcomes(file: seq<Byte>, parse: seq<Byte> -> Option<Container>)
    ensures var r := ReadDocumentSpec(file, parse);
      && (r == Failure(NoInitialTag) <==> Find(Probe(file), OpenTag).None?)
      && (r.Failure? && r.error.TooLarge? ==> r.error.length > MaxXmlLength)
      && (r.Failure? ==> r.error.NoInitialTag? || r.error.TooLarge? || r.error.ParseFailed?)
      && (r.Success? ==>
            && r.value.xmlLength <= MaxXmlLength
            && r.value.xmlLength == ScanFrom(file, 0, 0, false).end + 1
            && parse(file[..Min(r.value.xmlLength, |file|)]) == Some(r.value.tree)
            && (ScanFrom(file, 0, 0, false).Balanced? ==>
                  r.value.xmlLength <= |file| + 1 &&
                  OccursAt(file, CloseTag, r.value.xmlLength - 1 - |CloseTag|)))
  {
    if Find(Probe(file), OpenTag).Some? {
      ProbeSeesOpen(file);
    }
    var e := ScanFrom(file, 0, 0, false);
    if e.Balanced? {
      BalancedEndsWithClose(file, 0, 0, 0, false);
      TagAtOccurs(file, e.end - |CloseTag|);
    }
  }

  /**
   * Flattening keeps the document's length and tree, and fails only when
   * `philipsTag` raises or yields no record.
   */
  lemma FlattenKeeps(xmlLength: nat, tree: Container)
    ensures var r := Flatten(xmlLength, tree);
      && (r.Success? ==> r.value.xmlLength == xmlLength && r.value.tree == tree)
      && (r.Failure? ==> r.error.FlattenFailed? || r.error.NoRecords?)
  {
  }

  /** Every metadata `_readXML` returns comes from a document the scan and the parser produced. */
  lemma ReadXmlOutcomes(file: seq<Byte>, parse: seq<Byte> -> Option<Container>)
    ensures var r := ReadXmlSpec(file, parse);
      var d := ReadDocumentSpec(file, parse);
      && (r.Success? ==> d == Success(Document(r.value.xmlLength, r.value.tree)))
      && (d.Failure? ==> r == Failure(d.error))
  {
    match ReadDocumentSpec(file, parse)
    case Failure(e) =>
    case Success(doc) => FlattenKeeps(doc.xmlLength, doc.tree);
  }
}
