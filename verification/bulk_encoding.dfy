/** The two encoders of an operation list: newline-delimited JSON for the HTTP bulk API and the body
    list of a gRPC bulk request, each against a reader of what it wrote. */
module BulkEncoding {
  import opened BulkData
  import opened DocumentStore

  // ---- The NDJSON encoder

  const DOC_OPEN := "{\"doc\":"

  /** The head of an action's metadata line, up to the id. */
  function MetadataHead(action: ActionCode): Bytes
    requires Known(action)
  {
    if action == INDEX then "{\"index\":{\"_id\":\""
    else if action == CREATE then "{\"create\":{\"_id\":\""
    else if action == DELETE then "{\"delete\":{\"_id\":\""
    else "{\"update\":{\"_id\":\""
  }

  const METADATA_TAIL := "\"}}"

  function Metadata(action: ActionCode, id: string): Bytes {
    if Known(action) then MetadataHead(action) + id + METADATA_TAIL + "\n" else ""
  }

  /** The document bytes that follow the metadata. */
  function Document(d: Data): Bytes {
    if d.action == INDEX || d.action == CREATE then d.body
    else if d.action == UPDATE then DOC_OPEN + d.body + "}"
    else ""
  }

  function Encode(d: Data): Bytes {
    Metadata(d.action, d.id) + Document(d) + "\n"
  }

  function EncodeAll(dp: seq<Data>): Bytes {
    if dp == [] then "" else Encode(dp[0]) + EncodeAll(dp[1..])
  }

  /** `bytes.Buffer` */
  class ByteBuffer {
    var contents: Bytes

    constructor ()
      ensures contents == ""
    {
      contents := "";
    }

    method Write(s: Bytes)
      modifies this
      ensures contents == old(contents) + s
    {
      contents := contents + s;
    }
  }

  lemma Regroup(a: Bytes, b: Bytes, c: Bytes, d: Bytes, e: Bytes)
    ensures a + b + c + d + e == a + (b + c + d + e)
  {
  }

  /** `writeMetadataBody` */
  method WriteMetadataBody(buf: ByteBuffer, action: ActionCode, id: string)
    modifies buf
    ensures buf.contents == old(buf.contents) + Metadata(action, id)
  {
    if action == INDEX {
      WriteEntry(buf, "{\"index\":{\"_id\":\"", id, METADATA_TAIL);
    } else if action == CREATE {
      WriteEntry(buf, "{\"create\":{\"_id\":\"", id, METADATA_TAIL);
    } else if action == DELETE {
      WriteEntry(buf, "{\"delete\":{\"_id\":\"", id, METADATA_TAIL);
    } else if action == UPDATE {
      WriteEntry(buf, "{\"update\":{\"_id\":\"", id, METADATA_TAIL);
    }
  }

  /** The four writes that every case of `writeMetadataBody` makes. */
  method WriteEntry(buf: ByteBuffer, head: Bytes, id: string, tail: Bytes)
    modifies buf
    ensures buf.contents == old(buf.contents) + (head + id + tail + "\n")
  {
    ghost var before := buf.contents;
    buf.Write(head);
    buf.Write(id);
    buf.Write(tail);
    buf.Write("\n");
    Regroup(before, head, id, tail, "\n");
  }

  /** The document part of `Data.Bytes`. */
  method WriteDocument(buf: ByteBuffer, d: Data)
    modifies buf
    ensures buf.contents == old(buf.contents) + Document(d)
  {
    ghost var before := buf.contents;
    if d.action == INDEX || d.action == CREATE {
      buf.Write(d.body);
    } else if d.action == UPDATE {
      buf.Write(DOC_OPEN);
      buf.Write(d.body);
      buf.Write("}");
      Regroup(before, DOC_OPEN, d.body, "}", "");
    }
  }

  /** `Data.Bytes` */
  method DataBytes(d: Data) returns (r: Bytes)
    ensures r == Encode(d)
  {
    var buf := new ByteBuffer();
    WriteMetadataBody(buf, d.action, d.id);
    WriteDocument(buf, d);
    buf.Write("\n");
    return buf.contents;
  }

  /** `DataPayload.Bytes` */
  method PayloadBytes(dp: seq<Data>) returns (r: Bytes)
    ensures r == EncodeAll(dp)
  {
    if |dp| == 0 {
      return "";
    }
    var buf := new ByteBuffer();
    for i := 0 to |dp|
      invariant buf.contents + EncodeAll(dp[i..]) == EncodeAll(dp)
    {
      var bytes := DataBytes(dp[i]);
      EncodeNext(buf.contents, dp, i);
      buf.Write(bytes);
    }
    return buf.contents;
  }

  lemma EncodeNext(before: Bytes, dp: seq<Data>, i: nat)
    requires i < |dp|
    ensures before + EncodeAll(dp[i..]) == (before + Encode(dp[i])) + EncodeAll(dp[i + 1..])
  {
    assert dp[i..][0] == dp[i] && dp[i..][1..] == dp[i + 1..];
    Associative(before, Encode(dp[i]), EncodeAll(dp[i + 1..]));
  }

  lemma Associative(a: Bytes, b: Bytes, c: Bytes)
    ensures a + (b + c) == (a + b) + c
  {
  }

  // ---- The bulk reader

  /** An operation as the engine sees it: no id means that the engine makes one up. */
  datatype Op = Op(action: ActionCode, id: Option<string>, doc: Option<Bytes>)

  datatype Split = Split(head: string, rest: string)

  /** The text up to the first newline and what follows it. */
  function Line(text: string): Option<Split> {
    if text == "" then None
    else if text[0] == '\n' then Some(Split("", text[1..]))
    else
      match Line(text[1..])
      case None => None
      case Some(s) => Some(Split([text[0]] + s.head, s.rest))
  }

  function Unescape(c: char): Option<char> {
    match c
    case '\"' => Some('\"')
    case '\\' => Some('\\')
    case '/' => Some('/')
    case 'b' => Some(8 as char)
    case 'f' => Some(12 as char)
    case 'n' => Some('\n')
    case 'r' => Some('\r')
    case 't' => Some('\t')
    case _ => None
  }

  predicate Control(c: char) {
    c < ' '
  }

  /** The rest of a JSON string after its opening quote: its value and the text behind it. */
  function ReadString(s: string): Option<Split> {
    if s == "" || Control(s[0]) then None
    else if s[0] == '\"' then Some(Split("", s[1..]))
    else if s[0] == '\\' then
      if |s| == 1 || Unescape(s[1]).None? then None
      else
        match ReadString(s[2..])
        case None => None
        case Some(r) => Some(Split([Unescape(s[1]).value] + r.head, r.rest))
    else
      match ReadString(s[1..])
      case None => None
      case Some(r) => Some(Split([s[0]] + r.head, r.rest))
  }

  function ActionOf(verb: string): Option<ActionCode> {
    if verb == "index" then Some(INDEX)
    else if verb == "create" then Some(CREATE)
    else if verb == "delete" then Some(DELETE)
    else if verb == "update" then Some(UPDATE)
    else None
  }

  function StripPrefix(prefix: string, s: string): Option<string> {
    if prefix <= s then Some(s[|prefix|..]) else None
  }

  datatype Meta = Meta(action: ActionCode, id: string)

  const META_OPEN := "{\""
  const META_MIDDLE := ":{\"_id\":\""

  /** One metadata line: an object with the action's name around an object with the id. */
  function ReadMetadata(line: string): Option<Meta> {
    match StripPrefix(META_OPEN, line)
    case None => None
    case Some(s0) =>
      match ReadString(s0)
      case None => None
      case Some(verb) =>
        match StripPrefix(META_MIDDLE, verb.rest)
        case None => None
        case Some(s1) => ReadEntry(ActionOf(verb.head), s1)
  }

  function ReadEntry(action: Option<ActionCode>, s: string): Option<Meta> {
    match ReadString(s)
    case None => None
    case Some(id) =>
      if id.rest == "}}" && action.Some? then Some(Meta(action.value, id.head)) else None
  }

  lemma {:induction false} LineShrinks(text: string)
    ensures Line(text).Some? ==> |Line(text).value.head| + 1 + |Line(text).value.rest| == |text|
  {
    if text != "" && text[0] != '\n' {
      LineShrinks(text[1..]);
    }
  }

  function Prepend(op: Op, ops: Option<seq<Op>>): Option<seq<Op>> {
    match ops
    case None => None
    case Some(rest) => Some([op] + rest)
  }

  /** Reads a bulk body: blank lines are skipped where an action may stand, and every action but
      delete takes the next line as its document. */
  function Parse(text: string): Option<seq<Op>>
    decreases |text|
  {
    if text == "" then Some([])
    else
      LineShrinks(text);
      match Line(text)
      case None => None
      case Some(first) =>
        if first.head == "" then Parse(first.rest)
        else
          match ReadMetadata(first.head)
          case None => None
          case Some(meta) =>
            if meta.action == DELETE then Prepend(Op(DELETE, Some(meta.id), None), Parse(first.rest))
            else
              LineShrinks(first.rest);
              match Line(first.rest)
              case None => None
              case Some(doc) => Prepend(Op(meta.action, Some(meta.id), Some(doc.head)), Parse(doc.rest))
  }

  // ---- Round trip

  predicate CleanId(id: string) {
    forall c :: c in id ==> c != '\"' && c != '\\' && !Control(c)
  }

  /** The item reads back: its id needs no escaping and its document is a single line. */
  predicate Readable(d: Data) {
    Known(d.action) ==> CleanId(d.id) && (d.action != DELETE ==> '\n' !in d.body)
  }

  function OpOf(d: Data): Op {
    Op(d.action, Some(d.id), if d.action == DELETE then None else Some(Document(d)))
  }

  /** What the engine should see: the known actions in order, deletes without a document. */
  function Intended(dp: seq<Data>): seq<Op> {
    if dp == [] then []
    else if Known(dp[0].action) then [OpOf(dp[0])] + Intended(dp[1..])
    else Intended(dp[1..])
  }

  lemma {:induction false} LineUpTo(s: string, rest: string)
    requires '\n' !in s
    ensures Line(s + "\n" + rest) == Some(Split(s, rest))
  {
    var text := s + "\n" + rest;
    if s == "" {
      assert text[1..] == rest;
    } else {
      assert s[0] in s && forall c :: c in s[1..] ==> c in s;
      assert text[1..] == s[1..] + "\n" + rest;
      LineUpTo(s[1..], rest);
      assert s == [s[0]] + s[1..];
    }
  }

  lemma {:induction false} ReadCleanString(s: string, rest: string)
    requires CleanId(s)
    ensures ReadString(s + "\"" + rest) == Some(Split(s, rest))
  {
    var text := s + "\"" + rest;
    if s == "" {
      assert text[1..] == rest;
    } else {
      assert s[0] in s && forall c :: c in s[1..] ==> c in s;
      assert text[1..] == s[1..] + "\"" + rest;
      ReadCleanString(s[1..], rest);
      assert s == [s[0]] + s[1..];
    }
  }

  /** What a string reads as is shorter than its text, or the text needed no escapes. */
  lemma {:induction false} ReadStringShrinks(s: string)
    requires ReadString(s).Some?
    ensures
      var r := ReadString(s).value;
      && |r.head| + 1 + |r.rest| <= |s|
      && (|r.head| + 1 + |r.rest| == |s| ==> CleanId(r.head) && s == r.head + "\"" + r.rest)
  {
    if s[0] == '\"' {
      assert s == "" + "\"" + s[1..];
    } else if s[0] == '\\' {
      ReadStringShrinks(s[2..]);
    } else {
      ReadStringShrinks(s[1..]);
      assert s == [s[0]] + s[1..];
    }
  }

  function Verb(action: ActionCode): string
    requires Known(action)
  {
    if action == INDEX then "index" else if action == CREATE then "create"
    else if action == DELETE then "delete" else "update"
  }

  lemma VerbIsClean(action: ActionCode)
    requires Known(action)
    ensures CleanId(Verb(action)) && ActionOf(Verb(action)) == Some(action)
  {
  }

  lemma {:induction false} HeadParts(action: ActionCode)
    requires Known(action)
    ensures MetadataHead(action) == META_OPEN + (Verb(action) + "\"" + META_MIDDLE)
  {
    if action == INDEX { IndexHead(); }
    else if action == CREATE { CreateHead(); }
    else if action == DELETE { DeleteHead(); }
    else { UpdateHead(); }
  }

  lemma IndexHead()
    ensures "{\"index\":{\"_id\":\"" == META_OPEN + ("index" + "\"" + META_MIDDLE)
  {
  }

  lemma CreateHead()
    ensures "{\"create\":{\"_id\":\"" == META_OPEN + ("create" + "\"" + META_MIDDLE)
  {
  }

  lemma DeleteHead()
    ensures "{\"delete\":{\"_id\":\"" == META_OPEN + ("delete" + "\"" + META_MIDDLE)
  {
  }

  lemma UpdateHead()
    ensures "{\"update\":{\"_id\":\"" == META_OPEN + ("update" + "\"" + META_MIDDLE)
  {
  }

  lemma StripsOwnPrefix(prefix: string, s: string)
    ensures StripPrefix(prefix, prefix + s) == Some(s)
  {
  }

  lemma Nest(a: string, b: string, c: string, d: string, s: string)
    ensures (a + (b + c + d)) + s == a + (b + c + (d + s))
  {
  }

  /** Reading a metadata line comes down to reading the id behind the head. */
  lemma ReadMetadataIsReadId(action: ActionCode, s: string)
    requires Known(action)
    ensures ReadMetadata(MetadataHead(action) + s) == ReadEntry(Some(action), s)
  {
    var verb := Verb(action);
    HeadParts(action);
    Nest(META_OPEN, verb, "\"", META_MIDDLE, s);
    StripsOwnPrefix(META_OPEN, verb + "\"" + (META_MIDDLE + s));
    VerbIsClean(action);
    ReadCleanString(verb, META_MIDDLE + s);
    StripsOwnPrefix(META_MIDDLE, s);
  }

  lemma HeadIsOneLine(action: ActionCode)
    requires Known(action)
    ensures '\n' !in MetadataHead(action) && MetadataHead(action) != ""
  {
    HeadParts(action);
    VerbIsClean(action);
    assert '\n' !in META_OPEN && '\n' !in META_MIDDLE;
  }

  /** The text of an item: its metadata line, its document and a newline. */
  lemma ItemText(d: Data, t: string)
    requires Known(d.action)
    ensures Encode(d) + t == (MetadataHead(d.action) + (d.id + METADATA_TAIL)) + "\n" + (Document(d) + "\n" + t)
  {
    Regroup2(MetadataHead(d.action), d.id, METADATA_TAIL, Document(d), t);
  }

  lemma Regroup2(head: string, id: string, tail: string, doc: string, t: string)
    ensures (head + id + tail + "\n") + doc + "\n" + t == (head + (id + tail)) + "\n" + (doc + "\n" + t)
  {
  }

  /** What parsing makes of a first line that is not blank. */
  lemma ParseFirstLine(line: string, rest: string)
    requires line != "" && '\n' !in line
    ensures
      Parse(line + "\n" + rest) ==
      match ReadMetadata(line)
      case None => None
      case Some(meta) =>
        if meta.action == DELETE then Prepend(Op(DELETE, Some(meta.id), None), Parse(rest))
        else
          match Line(rest)
          case None => None
          case Some(doc) => Prepend(Op(meta.action, Some(meta.id), Some(doc.head)), Parse(doc.rest))
  {
    LineUpTo(line, rest);
  }

  lemma ParseBlankLine(t: string)
    ensures Parse("\n" + t) == Parse(t)
  {
    assert ("\n" + t)[1..] == t;
  }

  lemma DocumentIsOneLine(d: Data)
    requires d.action != DELETE ==> '\n' !in d.body
    ensures '\n' !in Document(d)
  {
    assert '\n' !in DOC_OPEN;
  }

  lemma ReadOwnId(action: ActionCode, id: string)
    requires Known(action) && CleanId(id)
    ensures ReadMetadata(MetadataHead(action) + (id + METADATA_TAIL)) == Some(Meta(action, id))
  {
    ReadMetadataIsReadId(action, id + METADATA_TAIL);
    ReadCleanString(id, "}}");
    assert id + METADATA_TAIL == id + "\"" + "}}";
  }

  lemma ParseCleanId(d: Data, t: string)
    requires Known(d.action) && CleanId(d.id)
    ensures
      Parse(Encode(d) + t) ==
      if d.action == DELETE then Prepend(OpOf(d), Parse(t))
      else
        match Line(Document(d) + "\n" + t)
        case None => None
        case Some(doc) => Prepend(Op(d.action, Some(d.id), Some(doc.head)), Parse(doc.rest))
  {
    var line := MetadataHead(d.action) + (d.id + METADATA_TAIL);
    ItemText(d, t);
    HeadIsOneLine(d.action);
    assert '\n' !in line;
    ReadOwnId(d.action, d.id);
    ParseFirstLine(line, Document(d) + "\n" + t);
    if d.action == DELETE {
      assert Document(d) + "\n" + t == "\n" + t;
      ParseBlankLine(t);
    }
  }

  /** A readable item reads back in front of anything. */
  lemma ParseReadable(d: Data, t: string)
    requires Known(d.action) && Readable(d)
    ensures Parse(Encode(d) + t) == Prepend(OpOf(d), Parse(t))
  {
    ParseCleanId(d, t);
    if d.action != DELETE {
      DocumentIsOneLine(d);
      LineUpTo(Document(d), t);
    }
  }

  /** The operation has another id than the item, or another document. */
  predicate Misread(d: Data, op: Op) {
    && op.id.Some?
    && (op.id.value != d.id || (d.action != DELETE && op.doc.Some? && op.doc.value != Document(d)))
  }

  lemma {:induction false} SplitAtNewline(s: string) returns (u: string, v: string)
    requires '\n' in s
    ensures s == u + "\n" + v && '\n' !in u
  {
    if s[0] == '\n' {
      u, v := "", s[1..];
    } else {
      u, v := SplitAtNewline(s[1..]);
      assert s == [s[0]] + s[1..];
      u := [s[0]] + u;
    }
  }

  lemma DirtyIdMisreads(d: Data, t: string)
    requires Known(d.action) && !CleanId(d.id)
    ensures Parse(Encode(d) + t).Some? ==> Parse(Encode(d) + t).value != [] && Misread(d, Parse(Encode(d) + t).value[0])
  {
    var head := MetadataHead(d.action);
    ItemText(d, t);
    HeadIsOneLine(d.action);
    var line, rest;
    if '\n' in d.id {
      var u, v := SplitAtNewline(d.id);
      line, rest := head + u, v + METADATA_TAIL + "\n" + (Document(d) + "\n" + t);
      Regroup3(head, u, v, METADATA_TAIL, Document(d) + "\n" + t);
      ReadMetadataIsReadId(d.action, u);
      if ReadString(u).Some? { ReadStringShrinks(u); }
    } else {
      line, rest := head + (d.id + METADATA_TAIL), Document(d) + "\n" + t;
      ReadMetadataIsReadId(d.action, d.id + METADATA_TAIL);
      TailedIdMisreads(d.id);
    }
    ParseFirstLine(line, rest);
  }

  lemma Regroup3(head: string, u: string, v: string, tail: string, rest: string)
    ensures (head + ((u + "\n" + v) + tail)) + "\n" + rest == (head + u) + "\n" + (v + tail + "\n" + rest)
  {
  }

  lemma TailedIdMisreads(id: string)
    requires !CleanId(id)
    ensures
      var r := ReadString(id + METADATA_TAIL);
      r.Some? && r.value.rest == "}}" ==> r.value.head != id
  {
    var s := id + METADATA_TAIL;
    if ReadString(s).Some? {
      ReadStringShrinks(s);
    }
  }

  lemma BrokenDocumentMisreads(d: Data, t: string)
    requires Known(d.action) && CleanId(d.id) && d.action != DELETE && '\n' in d.body
    ensures Parse(Encode(d) + t).Some? ==> Parse(Encode(d) + t).value != [] && Misread(d, Parse(Encode(d) + t).value[0])
  {
    ParseCleanId(d, t);
    DocumentIsBroken(d);
    var u, v := SplitAtNewline(Document(d));
    Regroup4(u, v, t);
    LineUpTo(u, v + "\n" + t);
  }

  lemma DocumentIsBroken(d: Data)
    requires Known(d.action) && d.action != DELETE && '\n' in d.body
    ensures '\n' in Document(d)
  {
    if d.action == UPDATE {
      assert '\n' in DOC_OPEN + d.body;
    }
  }

  lemma Regroup4(u: string, v: string, t: string)
    ensures (u + "\n" + v) + "\n" + t == u + "\n" + (v + "\n" + t)
  {
  }

  /** An item that is not readable is never read back as itself. */
  lemma UnreadableMisreads(d: Data, t: string)
    requires Known(d.action) && !Readable(d)
    ensures Parse(Encode(d) + t).Some? ==> Parse(Encode(d) + t).value != [] && Misread(d, Parse(Encode(d) + t).value[0])
  {
    if CleanId(d.id) {
      BrokenDocumentMisreads(d, t);
    } else {
      DirtyIdMisreads(d, t);
    }
  }

  predicate AllReadable(dp: seq<Data>) {
    forall d :: d in dp ==> Readable(d)
  }

  /** NDJSON round trip, for every payload: reading the body gives back exactly the known operations
      in order if and only if every known id is free of quotes, backslashes and control bytes and
      every document is a single line. */
  lemma {:induction false} NdjsonRoundTripIff(dp: seq<Data>)
    ensures Parse(EncodeAll(dp)) == Some(Intended(dp)) <==> AllReadable(dp)
  {
    if dp != [] {
      var d, rest := dp[0], dp[1..];
      NdjsonRoundTripIff(rest);
      assert AllReadable(dp) <==> Readable(d) && AllReadable(rest);
      if !Known(d.action) {
        assert Encode(d) == "\n";
        ParseBlankLine(EncodeAll(rest));
      } else if Readable(d) {
        ParseReadable(d, EncodeAll(rest));
        assert Intended(dp)[1..] == Intended(rest);
      } else {
        UnreadableMisreads(d, EncodeAll(rest));
        assert Intended(dp)[0] == OpOf(d);
      }
    }
  }

  // ---- The gRPC encoder

  datatype BulkBody = BulkBody(kind: ActionCode, xIndex: Option<string>, xId: Option<string>, doc: Option<Bytes>)

  datatype BulkRequest = BulkRequest(index: Option<string>, bodies: seq<BulkBody>)

  function NonEmpty(s: string): Option<string> {
    if s == "" then None else Some(s)
  }

  function BodyOf(d: Data, defaultIndex: string): BulkBody {
    BulkBody(d.action, NonEmpty(defaultIndex), NonEmpty(d.id), NonEmpty(Document(d)))
  }

  function BulkBodies(dp: seq<Data>, defaultIndex: string): seq<BulkBody> {
    if dp == [] then []
    else if Known(dp[0].action) then [BodyOf(dp[0], defaultIndex)] + BulkBodies(dp[1..], defaultIndex)
    else BulkBodies(dp[1..], defaultIndex)
  }

  lemma BodiesNext(before: seq<BulkBody>, dp: seq<Data>, i: nat, defaultIndex: string)
    requires i < |dp|
    ensures before + BulkBodies(dp[i..], defaultIndex) ==
            (if Known(dp[i].action) then before + [BodyOf(dp[i], defaultIndex)] else before)
            + BulkBodies(dp[i + 1..], defaultIndex)
  {
    assert dp[i..][0] == dp[i] && dp[i..][1..] == dp[i + 1..];
  }

  function Request(dp: seq<Data>, defaultIndex: string): BulkRequest {
    BulkRequest(NonEmpty(defaultIndex), BulkBodies(dp, defaultIndex))
  }

  /** `ToBulkRequest` */
  method ToBulkRequest(dp: seq<Data>, defaultIndex: string) returns (req: BulkRequest)
    ensures req == Request(dp, defaultIndex)
  {
    var index := None;
    if defaultIndex != "" {
      index := Some(defaultIndex);
    }
    if |dp| == 0 {
      return BulkRequest(index, []);
    }
    var body := [];
    for i := 0 to |dp|
      invariant body + BulkBodies(dp[i..], defaultIndex) == BulkBodies(dp, defaultIndex)
    {
      var d := dp[i];
      BodiesNext(body, dp, i, defaultIndex);
      var doc: Bytes := "";
      if d.action == INDEX || d.action == CREATE {
        doc := d.body;
      } else if d.action == UPDATE {
        doc := DOC_OPEN + d.body + "}";
      } else if d.action != DELETE {
        continue;
      }
      var id := None;
      if d.id != "" {
        id := Some(d.id);
      }
      var brb := BulkBody(d.action, index, id, None);
      if |doc| > 0 {
        brb := brb.(doc := Some(doc));
      }
      body := body + [brb];
    }
    return BulkRequest(index, body);
  }

  /** The operations as the engine reads them from a gRPC request. */
  function ReadBodies(bodies: seq<BulkBody>): seq<Op> {
    if bodies == [] then []
    else [Op(bodies[0].kind, bodies[0].xId, bodies[0].doc)] + ReadBodies(bodies[1..])
  }

  /** An operation and the index that it goes to, if any is named. */
  datatype Targeted = Targeted(index: Option<string>, op: Op)

  function At(index: Option<string>, ops: seq<Op>): (r: seq<Targeted>)
    ensures |r| == |ops| && forall i :: 0 <= i < |ops| ==> r[i] == Targeted(index, ops[i])
  {
    if ops == [] then [] else [Targeted(index, ops[0])] + At(index, ops[1..])
  }

  /** A body's own index decides, and the request's where the body names none. */
  function ReadRequest(req: BulkRequest): seq<Targeted>
    decreases |req.bodies|
  {
    if req.bodies == [] then []
    else
      var b := req.bodies[0];
      [Targeted(if b.xIndex.Some? then b.xIndex else req.index, Op(b.kind, b.xId, b.doc))]
      + ReadRequest(req.(bodies := req.bodies[1..]))
  }

  /** The path that the HTTP client posts to. */
  function BulkPath(index: string): string {
    if index != "" then "/" + index + "/_bulk" else "/_bulk"
  }

  /** The index in a bulk path: what stands before `/_bulk`, without its slash. */
  function PathTarget(path: string): Option<string> {
    if path == "/_bulk" then None
    else if |path| > 7 && path[0] == '/' && path[|path| - 6..] == "/_bulk" then Some(path[1..|path| - 6])
    else None
  }

  /** A bulk body names no indices, so the path's is that of every operation. */
  function ReadPost(path: string, text: string): Option<seq<Targeted>> {
    match Parse(text)
    case None => None
    case Some(ops) => Some(At(PathTarget(path), ops))
  }

  lemma PathNamesIndex(index: string)
    ensures PathTarget(BulkPath(index)) == if index == "" then None else Some(index)
  {
    if index != "" {
      var path := "/" + index + "/_bulk";
      assert path[|path| - 6..] == "/_bulk" && path[1..|path| - 6] == index;
    }
  }

  lemma {:induction false} RequestIsTargeted(dp: seq<Data>, defaultIndex: string)
    ensures ReadRequest(Request(dp, defaultIndex)) ==
            At(if defaultIndex == "" then None else Some(defaultIndex), ReadBodies(BulkBodies(dp, defaultIndex)))
  {
    if dp != [] {
      var req, rest := Request(dp, defaultIndex), Request(dp[1..], defaultIndex);
      RequestIsTargeted(dp[1..], defaultIndex);
      if Known(dp[0].action) {
        assert req.bodies[1..] == rest.bodies && req.(bodies := req.bodies[1..]) == rest;
        var ops := ReadBodies(req.bodies);
        assert ops[1..] == ReadBodies(rest.bodies);
      }
    }
  }

  lemma {:induction false} BodiesNameIndex(dp: seq<Data>, defaultIndex: string)
    ensures forall b :: b in BulkBodies(dp, defaultIndex) ==>
              b.xIndex == if defaultIndex == "" then None else Some(defaultIndex)
  {
    if dp != [] {
      BodiesNameIndex(dp[1..], defaultIndex);
    }
  }

  /** Over either transport, every operation goes to the configured index, and names none when that is
      empty. The gRPC request and each of its bodies name it. */
  lemma {:induction false} TargetsAreConfigured(dp: seq<Data>, defaultIndex: string)
    ensures Request(dp, defaultIndex).index == if defaultIndex == "" then None else Some(defaultIndex)
    ensures forall b :: b in Request(dp, defaultIndex).bodies ==>
              b.xIndex == if defaultIndex == "" then None else Some(defaultIndex)
    ensures forall t :: t in ReadRequest(Request(dp, defaultIndex)) ==>
              t.index == if defaultIndex == "" then None else Some(defaultIndex)
    ensures forall text, t :: ReadPost(BulkPath(defaultIndex), text).Some? &&
                              t in ReadPost(BulkPath(defaultIndex), text).value ==>
              t.index == if defaultIndex == "" then None else Some(defaultIndex)
  {
    BodiesNameIndex(dp, defaultIndex);
    RequestIsTargeted(dp, defaultIndex);
    PathNamesIndex(defaultIndex);
  }

  /** What gRPC cannot express as NDJSON does: an empty id, or an empty document. */
  predicate Explicit(d: Data) {
    Known(d.action) ==> d.id != "" && (d.action == INDEX || d.action == CREATE ==> d.body != "")
  }

  predicate AllExplicit(dp: seq<Data>) {
    forall d :: d in dp ==> Explicit(d)
  }

  /** The two transports carry the same operations to the same index, for every payload and index, if
      and only if the NDJSON is readable, no known action has an empty id and no index or create action
      has an empty body. Unknown actions vanish from both. */
  lemma {:induction false} EncodersAgreeIff(dp: seq<Data>, defaultIndex: string)
    ensures ReadPost(BulkPath(defaultIndex), EncodeAll(dp)) == Some(ReadRequest(Request(dp, defaultIndex))) <==>
            AllReadable(dp) && AllExplicit(dp)
  {
    OperationsAgreeIff(dp, defaultIndex);
    RequestIsTargeted(dp, defaultIndex);
    PathNamesIndex(defaultIndex);
    if Parse(EncodeAll(dp)).Some? {
      AtIsInjective(PathTarget(BulkPath(defaultIndex)), Parse(EncodeAll(dp)).value,
                    ReadBodies(BulkBodies(dp, defaultIndex)));
    }
  }

  lemma AtIsInjective(index: Option<string>, a: seq<Op>, b: seq<Op>)
    ensures At(index, a) == At(index, b) <==> a == b
  {
    if At(index, a) == At(index, b) {
      forall i | 0 <= i < |a|
        ensures a[i] == b[i]
      {
        assert At(index, a)[i] == At(index, b)[i];
      }
    }
  }

  lemma {:induction false} OperationsAgreeIff(dp: seq<Data>, defaultIndex: string)
    ensures Parse(EncodeAll(dp)) == Some(ReadBodies(BulkBodies(dp, defaultIndex))) <==>
            AllReadable(dp) && AllExplicit(dp)
  {
    if dp != [] {
      var d, rest := dp[0], dp[1..];
      OperationsAgreeIff(rest, defaultIndex);
      assert AllReadable(dp) <==> Readable(d) && AllReadable(rest);
      assert AllExplicit(dp) <==> Explicit(d) && AllExplicit(rest);
      var bodies, bodies' := BulkBodies(dp, defaultIndex), BulkBodies(rest, defaultIndex);
      if !Known(d.action) {
        assert Encode(d) == "\n";
        ParseBlankLine(EncodeAll(rest));
      } else {
        assert bodies[1..] == bodies';
        var op := Op(d.action, NonEmpty(d.id), NonEmpty(Document(d)));
        assert ReadBodies(bodies) == [op] + ReadBodies(bodies');
        if Readable(d) {
          ParseReadable(d, EncodeAll(rest));
          SameListsIff(OpOf(d), Parse(EncodeAll(rest)), op, ReadBodies(bodies'));
        } else {
          UnreadableMisreads(d, EncodeAll(rest));
          assert ReadBodies(bodies)[0] == op;
        }
      }
    }
  }

  /** Over gRPC every payload reads back as intended, newlines and quotes included, exactly when it is
      explicit. */
  lemma {:induction false} GrpcRoundTripIff(dp: seq<Data>, defaultIndex: string)
    ensures ReadBodies(BulkBodies(dp, defaultIndex)) == Intended(dp) <==> AllExplicit(dp)
  {
    if dp != [] {
      var d, rest := dp[0], dp[1..];
      GrpcRoundTripIff(rest, defaultIndex);
      assert AllExplicit(dp) <==> Explicit(d) && AllExplicit(rest);
      if Known(d.action) {
        var bodies := BulkBodies(dp, defaultIndex);
        assert bodies[1..] == BulkBodies(rest, defaultIndex);
        var op := Op(d.action, NonEmpty(d.id), NonEmpty(Document(d)));
        assert ReadBodies(bodies) == [op] + ReadBodies(bodies[1..]);
        SameListsIff(op, Some(ReadBodies(bodies[1..])), OpOf(d), Intended(rest));
      }
    }
  }

  lemma SameListsIff(a: Op, tail: Option<seq<Op>>, b: Op, bs: seq<Op>)
    ensures Prepend(a, tail) == Some([b] + bs) <==> a == b && tail == Some(bs)
  {
    if tail.Some? {
      assert ([a] + tail.value)[1..] == tail.value && ([b] + bs)[1..] == bs;
      assert ([a] + tail.value)[0] == a && ([b] + bs)[0] == b;
    }
  }

  // ---- From the wire to the store

  /** The partial document in an update's `{"doc":` ... `}`; None for any other text. */
  function ReadPartial(doc: Bytes): Option<Bytes> {
    var open := "{\"doc\":";
    if open <= doc && |doc| > |open| && doc[|doc| - 1] == '}' then Some(doc[|open|..|doc| - 1]) else None
  }

  /** The operation that the engine executes. None where it would reject the operation, or make up an
      id of its own. */
  function Unwrap(op: Op): Option<Data> {
    if op.id.None? then None
    else if op.action == DELETE then Some(Data(op.id.value, DELETE, ""))
    else if op.doc.None? then None
    else if op.action != UPDATE then Some(Data(op.id.value, op.action, op.doc.value))
    else
      match ReadPartial(op.doc.value)
      case None => None
      case Some(body) => Some(Data(op.id.value, UPDATE, body))
  }

  function UnwrapAll(ops: seq<Op>): Option<seq<Data>> {
    if ops == [] then Some([])
    else
      var first, rest := Unwrap(ops[0]), UnwrapAll(ops[1..]);
      if first.None? || rest.None? then None else Some([first.value] + rest.value)
  }

  lemma {:induction false} UnwrapUndoesEncoding(d: Data)
    requires Known(d.action)
    ensures Unwrap(OpOf(d)) == Some(if d.action == DELETE then d.(body := "") else d)
  {
    if d.action == UPDATE {
      PartialIsRead(d.body);
    }
  }

  lemma PartialIsRead(body: Bytes)
    ensures ReadPartial(DOC_OPEN + body + "}") == Some(body)
  {
    var doc := DOC_OPEN + body + "}";
    assert doc[|DOC_OPEN|..|doc| - 1] == body;
  }

  /** Executing the operations has the effect of applying the payload. */
  ghost predicate SameEffect(read: Reader, store: Store, ops: seq<Op>, dp: seq<Data>) {
    UnwrapAll(ops).Some? && Apply(read, store, UnwrapAll(ops).value) == Apply(read, store, dp)
  }

  lemma {:induction false} IntendedHasTheSameEffect(read: Reader, store: Store, dp: seq<Data>)
    ensures SameEffect(read, store, Intended(dp), dp)
    decreases |dp|
  {
    if dp != [] {
      var d, rest := dp[0], dp[1..];
      assert dp == [d] + rest;
      ApplyConcat(read, store, [d], rest);
      if Known(d.action) {
        IntendedHasTheSameEffect(read, Apply(read, store, [d]), rest);
        UnwrapUndoesEncoding(d);
        var ops, e := Intended(dp), Unwrap(OpOf(d)).value;
        assert ops[0] == OpOf(d) && ops[1..] == Intended(rest);
        ApplyConcat(read, store, [e], UnwrapAll(Intended(rest)).value);
        SingleItem(read, store, d, e);
      } else {
        IntendedHasTheSameEffect(read, store, rest);
        SingleItem(read, store, d, d);
      }
    }
  }

  lemma SingleItem(read: Reader, store: Store, d: Data, e: Data)
    requires e == d || (d.action == DELETE && e == d.(body := ""))
    ensures Apply(read, store, [e]) == Apply(read, store, [d])
    ensures !Known(d.action) ==> Apply(read, store, [d]) == store
  {
    assert [d][..0] == [] && [e][..0] == [];
  }

  /** Sending the payload as a bulk body has the effect of applying its operations. */
  lemma {:induction false} WireHasTheSameEffect(read: Reader, store: Store, dp: seq<Data>)
    requires AllReadable(dp)
    ensures Parse(EncodeAll(dp)).Some? && SameEffect(read, store, Parse(EncodeAll(dp)).value, dp)
  {
    NdjsonRoundTripIff(dp);
    IntendedHasTheSameEffect(read, store, dp);
  }

  /** And so has sending it over gRPC. */
  lemma {:induction false} GrpcHasTheSameEffect(read: Reader, store: Store, dp: seq<Data>, defaultIndex: string)
    requires AllExplicit(dp)
    ensures SameEffect(read, store, ReadBodies(BulkBodies(dp, defaultIndex)), dp)
  {
    GrpcRoundTripIff(dp, defaultIndex);
    IntendedHasTheSameEffect(read, store, dp);
  }
}
