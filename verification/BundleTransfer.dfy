/** Bundle resources on their way from the server into the file store: the
    server frames them into one body, the network splits it anywhere, and the
    reader takes it apart again. */
module BundleTransfer {
  import opened Basics
  import opened DiskModel
  import opened ExtentLayout
  import opened FileStore

  const MAGIC: seq<byte> := [67, 65, 66, 83, 84, 82, 77, 49]
  const VERSION: nat := 1
  const HEADER_SIZE: nat := 12
  const ITEM_HEADER_SIZE: nat := 36
  const ID_SIZE: nat := 32
  const TAKE_SIZE: nat := 256 * 1024

  // --- numbers and identifiers on the wire --------------------------------------------------

  function LittleEndian(value: nat, width: nat): (bytes: seq<byte>)
    ensures |bytes| == width
  {
    if width == 0 then [] else [value % 256] + LittleEndian(value / 256, width - 1)
  }

  function FromLittleEndian(bytes: seq<byte>): nat {
    if bytes == [] then 0 else bytes[0] + 256 * FromLittleEndian(bytes[1..])
  }

  function Power256(width: nat): nat { if width == 0 then 1 else 256 * Power256(width - 1) }

  lemma {:induction false} LittleEndianRoundTrip(value: nat, width: nat)
    requires value < Power256(width)
    ensures FromLittleEndian(LittleEndian(value, width)) == value
  {
    if width > 0 {
      LittleEndianRoundTrip(value / 256, width - 1);
      assert LittleEndian(value, width)[1..] == LittleEndian(value / 256, width - 1);
    }
  }

  /** And bytes that are read are written as they were. */
  lemma {:induction false} BytesRoundTrip(bytes: seq<byte>)
    ensures LittleEndian(FromLittleEndian(bytes), |bytes|) == bytes
    ensures FromLittleEndian(bytes) < Power256(|bytes|)
  {
    if bytes != [] {
      BytesRoundTrip(bytes[1..]);
      assert bytes == [bytes[0]] + bytes[1..];
    }
  }

  /** The least byte comes first. */
  lemma BytesOfNumbers(two: seq<byte>, four: seq<byte>)
    requires |two| == 2 && |four| == 4
    ensures FromLittleEndian(two) == two[0] as int + 256 * (two[1] as int)
    ensures FromLittleEndian(four)
         == four[0] as int + 256 * (four[1] as int) + 65_536 * (four[2] as int) + 16_777_216 * (four[3] as int)
  {
    assert FromLittleEndian(two[1..]) == two[1] + 256 * FromLittleEndian(two[2..]);
    assert FromLittleEndian(four[1..]) == four[1] + 256 * FromLittleEndian(four[1..][1..]);
    assert FromLittleEndian(four[2..]) == four[2] + 256 * FromLittleEndian(four[2..][1..]);
    assert FromLittleEndian(four[3..]) == four[3] + 256 * FromLittleEndian(four[3..][1..]);
    assert four[1..][1..] == four[2..] && four[2..][1..] == four[3..] && four[3..][1..] == [];
  }

  function HexDigit(digit: nat): char
    requires digit < 16
  {
    "0123456789abcdef"[digit]
  }

  function Hex(bytes: seq<byte>): (text: string)
    ensures |text| == 2 * |bytes|
  {
    if bytes == [] then "" else [HexDigit(bytes[0] / 16), HexDigit(bytes[0] % 16)] + Hex(bytes[1..])
  }

  /** Two lower-case digits a byte, the high one first. */
  lemma {:induction false} HexDigitsAre(bytes: seq<byte>, k: nat)
    requires k < |bytes|
    ensures Hex(bytes)[2 * k] == "0123456789abcdef"[bytes[k] / 16]
    ensures Hex(bytes)[2 * k + 1] == "0123456789abcdef"[bytes[k] % 16]
  {
    if k > 0 {
      HexDigitsAre(bytes[1..], k - 1);
      assert Hex(bytes)[2..] == Hex(bytes[1..]);
      assert Hex(bytes)[2 * k] == Hex(bytes)[2..][2 * (k - 1)];
      assert Hex(bytes)[2 * k + 1] == Hex(bytes)[2..][2 * (k - 1) + 1];
    }
  }

  /** Comparing the text of two content ids is comparing the ids. */
  lemma {:induction false} HexIsInjective(one: seq<byte>, other: seq<byte>)
    requires Hex(one) == Hex(other)
    ensures one == other
  {
    assert |one| == |other|;
    if one != [] {
      var first, second := Hex(one), Hex(other);
      assert HexDigit(one[0] / 16) == first[0] && HexDigit(other[0] / 16) == second[0];
      assert HexDigit(one[0] % 16) == first[1] && HexDigit(other[0] % 16) == second[1];
      DigitsAreDistinct(one[0] / 16, other[0] / 16);
      DigitsAreDistinct(one[0] % 16, other[0] % 16);
      assert first[2..] == Hex(one[1..]) && second[2..] == Hex(other[1..]);
      HexIsInjective(one[1..], other[1..]);
      assert one == [one[0]] + one[1..] && other == [other[0]] + other[1..];
    }
  }

  lemma DigitsAreDistinct(one: nat, other: nat)
    requires one < 16 && other < 16 && HexDigit(one) == HexDigit(other)
    ensures one == other
  {
  }

  // --- the body the server sends ------------------------------------------------------------

  datatype Item = Item(id: seq<byte>, payload: seq<byte>)

  datatype Resource = Resource(contentId: string, storedSize: nat)

  predicate Sendable(item: Item) { |item.id| == ID_SIZE && |item.payload| < Power256(4) }

  function FramingHeader(count: nat): (header: seq<byte>)
    ensures |header| == HEADER_SIZE
  {
    MAGIC + LittleEndian(VERSION, 2) + LittleEndian(count, 2)
  }

  function Framed(item: Item): seq<byte> { item.id + LittleEndian(|item.payload|, 4) + item.payload }

  function FramedAll(items: seq<Item>): seq<byte> {
    if items == [] then [] else Framed(items[0]) + FramedAll(items[1..])
  }

  function Body(items: seq<Item>): seq<byte> { FramingHeader(|items|) + FramedAll(items) }

  function ResourceOf(item: Item): Resource { Resource(Hex(item.id), |item.payload|) }

  function ResourcesOf(items: seq<Item>): (resources: seq<Resource>)
    ensures |resources| == |items|
  {
    seq(|items|, k requires 0 <= k < |items| => ResourceOf(items[k]))
  }

  function PayloadsOf(items: seq<Item>): (payloads: seq<seq<byte>>)
    ensures |payloads| == |items|
  {
    seq(|items|, k requires 0 <= k < |items| => items[k].payload)
  }

  // --- what a body means to the client ------------------------------------------------------

  predicate GoodHeader(header: seq<byte>, count: nat) {
    && |header| == HEADER_SIZE
    && header[..8] == MAGIC
    && FromLittleEndian(header[8..10]) == VERSION
    && FromLittleEndian(header[10..12]) == count
  }

  predicate Announces(itemHeader: seq<byte>, expected: Resource) {
    && |itemHeader| == ITEM_HEADER_SIZE
    && Hex(itemHeader[..ID_SIZE]) == expected.contentId
    && FromLittleEndian(itemHeader[ID_SIZE..]) == expected.storedSize
  }

  /** The next resource is whole and is the expected one. */
  predicate StartsWith(frames: seq<byte>, expected: Resource) {
    && ITEM_HEADER_SIZE + expected.storedSize <= |frames|
    && Announces(frames[..ITEM_HEADER_SIZE], expected)
  }

  /** The payloads of the leading resources that are whole and expected. */
  function Payloads(frames: seq<byte>, resources: seq<Resource>): (payloads: seq<seq<byte>>)
    ensures |payloads| <= |resources|
    decreases |resources|
  {
    if resources == [] || !StartsWith(frames, resources[0]) then []
    else
      var end := ITEM_HEADER_SIZE + resources[0].storedSize;
      [frames[ITEM_HEADER_SIZE..end]] + Payloads(frames[end..], resources[1..])
  }

  function Leftover(frames: seq<byte>, resources: seq<Resource>): seq<byte>
    decreases |resources|
  {
    if resources == [] || !StartsWith(frames, resources[0]) then frames
    else Leftover(frames[ITEM_HEADER_SIZE + resources[0].storedSize..], resources[1..])
  }

  predicate HasHeader(body: seq<byte>, count: nat) { HEADER_SIZE <= |body| && GoodHeader(body[..HEADER_SIZE], count) }

  /** The bytes after the header, as far as there are any. */
  function Frames(body: seq<byte>): seq<byte> { if HEADER_SIZE <= |body| then body[HEADER_SIZE..] else [] }

  /** The body is an answer to a request for these resources. */
  predicate Answers(body: seq<byte>, resources: seq<Resource>) {
    && HasHeader(body, |resources|)
    && |Payloads(Frames(body), resources)| == |resources|
    && Leftover(Frames(body), resources) == []
  }

  lemma {:induction false} FramedRoundTrip(items: seq<Item>)
    requires forall k :: 0 <= k < |items| ==> Sendable(items[k])
    ensures Payloads(FramedAll(items), ResourcesOf(items)) == PayloadsOf(items)
    ensures Leftover(FramedAll(items), ResourcesOf(items)) == []
  {
    hide Power256, Hex, LittleEndian, FromLittleEndian;
    if items == [] {
      assert FramedAll(items) == [];
    } else {
      var frames, size := FramedAll(items), |items[0].payload|;
      var header := items[0].id + LittleEndian(size, 4);
      LittleEndianRoundTrip(size, 4);
      assert frames == header + items[0].payload + FramedAll(items[1..]);
      assert frames[..ITEM_HEADER_SIZE] == header && header[..ID_SIZE] == items[0].id;
      assert header[ID_SIZE..] == LittleEndian(size, 4);
      assert frames[ITEM_HEADER_SIZE..ITEM_HEADER_SIZE + size] == items[0].payload;
      assert frames[ITEM_HEADER_SIZE + size..] == FramedAll(items[1..]);
      assert ResourcesOf(items)[1..] == ResourcesOf(items[1..]);
      assert PayloadsOf(items) == [items[0].payload] + PayloadsOf(items[1..]);
      assert StartsWith(frames, ResourcesOf(items)[0]);
      FramedRoundTrip(items[1..]);
    }
  }

  /** What the server sends for a request answers it with exactly the payloads. */
  lemma BodyRoundTrip(items: seq<Item>)
    requires forall k :: 0 <= k < |items| ==> Sendable(items[k])
    requires |items| < Power256(2)
    ensures Answers(Body(items), ResourcesOf(items))
    ensures Payloads(Frames(Body(items)), ResourcesOf(items)) == PayloadsOf(items)
  {
    hide LittleEndian, FromLittleEndian, Payloads, Leftover, FramedAll;
    FramedRoundTrip(items);
    var body := Body(items);
    assert body[HEADER_SIZE..] == FramedAll(items);
    assert body[..HEADER_SIZE] == FramingHeader(|items|);
    assert VERSION < Power256(2);
    LittleEndianRoundTrip(VERSION, 2);
    LittleEndianRoundTrip(|items|, 2);
    var header := FramingHeader(|items|);
    assert header[8..10] == LittleEndian(VERSION, 2) && header[10..12] == LittleEndian(|items|, 2);
  }

  /** The resources asked for have these ids. */
  predicate AskedFor(ids: seq<seq<byte>>, resources: seq<Resource>) {
    && |ids| == |resources|
    && forall k :: 0 <= k < |ids| ==> |ids[k]| == 32 && resources[k].contentId == Hex(ids[k])
  }

  function ItemsOf(ids: seq<seq<byte>>, payloads: seq<seq<byte>>): (items: seq<Item>)
    requires |ids| == |payloads|
    ensures |items| == |ids|
  {
    seq(|ids|, k requires 0 <= k < |ids| => Item(ids[k], payloads[k]))
  }

  lemma {:induction false} FramesAreFramed(frames: seq<byte>, ids: seq<seq<byte>>, resources: seq<Resource>)
    requires AskedFor(ids, resources)
    requires |Payloads(frames, resources)| == |resources| && Leftover(frames, resources) == []
    ensures frames == FramedAll(ItemsOf(ids, Payloads(frames, resources)))
    ensures forall k :: 0 <= k < |resources| ==> |Payloads(frames, resources)[k]| == resources[k].storedSize
    decreases |resources|
  {
    hide Hex, LittleEndian, FromLittleEndian;
    if resources != [] {
      var end := ITEM_HEADER_SIZE + resources[0].storedSize;
      var payload, rest := frames[ITEM_HEADER_SIZE..end], frames[end..];
      FramesAreFramed(rest, ids[1..], resources[1..]);
      var later := Payloads(rest, resources[1..]);
      assert Payloads(frames, resources) == [payload] + later;
      var header := frames[..ITEM_HEADER_SIZE];
      HexIsInjective(header[..ID_SIZE], ids[0]);
      BytesRoundTrip(header[ID_SIZE..]);
      var items := ItemsOf(ids, [payload] + later);
      assert items[1..] == ItemsOf(ids[1..], later);
      assert frames == header[..ID_SIZE] + header[ID_SIZE..] + payload + rest;
      assert Framed(items[0]) == header[..ID_SIZE] + header[ID_SIZE..] + payload;
    }
  }

  /** Only what the server sends for some payloads of these sizes is an answer. */
  lemma AnswerIsBody(body: seq<byte>, ids: seq<seq<byte>>, resources: seq<Resource>)
    requires AskedFor(ids, resources) && Answers(body, resources)
    ensures body == Body(ItemsOf(ids, Payloads(Frames(body), resources)))
    ensures forall k :: 0 <= k < |resources| ==> |Payloads(Frames(body), resources)[k]| == resources[k].storedSize
  {
    hide LittleEndian, FromLittleEndian, Payloads, Leftover, FramedAll;
    FramesAreFramed(Frames(body), ids, resources);
    var header := body[..HEADER_SIZE];
    BytesRoundTrip(header[8..10]);
    BytesRoundTrip(header[10..12]);
    assert header == header[..8] + header[8..10] + header[10..12];
    assert body == header + Frames(body);
  }

  /** Magic, version and number of resources, then one frame after the other: id,
      size and payload. */
  lemma BodyLayout(items: seq<Item>, k: nat) returns (from: nat)
    requires k < |items| && forall i :: 0 <= i < |items| ==> Sendable(items[i])
    ensures Body(items)[..12] == [67, 65, 66, 83, 84, 82, 77, 49, 1, 0, |items| % 256, |items| / 256 % 256]
    ensures from == 12 + |FramedAll(items[..k])|
    ensures var body, size := Body(items), |items[k].payload|;
            && from + 36 + size <= |body| && body[from..from + 32] == items[k].id
            && body[from + 32..from + 36]
               == [size % 256, size / 256 % 256, size / 65_536 % 256, size / 16_777_216 % 256]
            && body[from + 36..from + 36 + size] == items[k].payload
  {
    var size := |items[k].payload|;
    assert items == items[..k] + items[k..];
    FramedJoins(items[..k], items[k..]);
    from := 12 + |FramedAll(items[..k])|;
    FourBytes(size);
    TwoBytes(|items|);
    TwoBytes(1);
    var front, frame := FramingHeader(|items|) + FramedAll(items[..k]), Framed(items[k]);
    var rest := FramedAll(items[k..][1..]);
    assert Body(items) == front + frame + rest by {
      Rejoin(FramingHeader(|items|), FramedAll(items[..k]), frame + rest);
    }
    FrameIsThere(front, items[k], rest);
  }

  lemma FrameIsThere(front: seq<byte>, item: Item, rest: seq<byte>)
    requires Sendable(item)
    ensures var body, from, size := front + Framed(item) + rest, |front|, |item.payload|;
            && body[from..from + 32] == item.id && body[from + 32..from + 36] == LittleEndian(size, 4)
            && body[from + 36..from + 36 + size] == item.payload
  {
  }

  lemma TwoBytes(value: nat)
    ensures LittleEndian(value, 2) == [value % 256, value / 256 % 256]
  {
    assert LittleEndian(value / 256, 1) == [value / 256 % 256] + LittleEndian(value / 256 / 256, 0);
  }

  lemma FourBytes(value: nat)
    ensures LittleEndian(value, 4)
         == [value % 256, value / 256 % 256, value / 65_536 % 256, value / 16_777_216 % 256]
  {
    TwoBytes(value / 256 / 256);
    assert LittleEndian(value / 256, 3) == [value / 256 % 256] + LittleEndian(value / 256 / 256, 2);
    assert value / 256 / 256 == value / 65_536 && value / 65_536 / 256 == value / 16_777_216;
  }

  lemma {:induction false} FramedJoins(one: seq<Item>, other: seq<Item>)
    ensures FramedAll(one + other) == FramedAll(one) + FramedAll(other)
  {
    if one == [] {
      assert one + other == other;
    } else {
      assert (one + other)[1..] == one[1..] + other;
      FramedJoins(one[1..], other);
    }
  }

  // --- reading a body that arrives in chunks ------------------------------------------------

  lemma {:induction false} FlattenFront(chunks: seq<seq<byte>>)
    requires chunks != []
    ensures Flatten(chunks) == chunks[0] + Flatten(chunks[1..])
  {
    var front, last := chunks[..|chunks| - 1], chunks[|chunks| - 1];
    if front == [] {
      assert Flatten(front) == [] && chunks[1..] == [];
    } else {
      FlattenFront(front);
      assert chunks[1..] == front[1..] + [last];
      FlattenAppend(front[1..], last);
      Rejoin(chunks[0], Flatten(front[1..]), last);
    }
  }

  lemma Rejoin(front: seq<byte>, middle: seq<byte>, rest: seq<byte>)
    ensures front + (middle + rest) == (front + middle) + rest
  {
  }

  lemma CutInTwo(chunk: seq<byte>, offset: nat, amount: nat, later: seq<byte>)
    requires offset + amount <= |chunk|
    ensures chunk[offset..] + later == chunk[offset..offset + amount] + (chunk[offset + amount..] + later)
  {
  }

  lemma FlattenNothing()
    ensures Flatten([]) == []
  {
  }

  class ResponseByteReader {
    /** The chunks the network has yet to deliver. */
    var network: seq<seq<byte>>
    /** The connection fails after the last chunk instead of ending. */
    const cut: bool
    ghost var delivered: seq<seq<byte>>
    var chunk: Option<seq<byte>>
    var offset: nat
    var released: bool

    ghost predicate Valid()
      reads this
    {
      && (chunk.Some? <==> delivered != [])
      && (chunk.Some? ==> chunk.value == delivered[|delivered| - 1] && offset <= |chunk.value|)
    }

    /** All chunks of the body. */
    ghost function Chunks(): seq<seq<byte>>
      reads this
    {
      delivered + network
    }

    /** Some byte of the present chunk has been read. */
    ghost predicate InChunk()
      reads this
    {
      chunk.Some? && offset > 0
    }

    /** The bytes not yet read. */
    ghost function Rest(): seq<byte>
      requires Valid()
      reads this
    {
      (if chunk.Some? then chunk.value[offset..] else []) + Flatten(network)
    }

    constructor (network: seq<seq<byte>>, cut: bool)
      ensures Valid() && Rest() == Flatten(network) && Chunks() == network && this.cut == cut
    {
      this.network, this.cut, delivered, chunk, offset, released := network, cut, [], None, 0, false;
    }

    /** Makes sure there is a chunk to read from, if the network has another one. */
    method Refill() returns (ended: bool)
      requires Valid()
      modifies this`network, this`delivered, this`chunk, this`offset
      ensures Valid() && Rest() == old(Rest()) && Chunks() == old(Chunks())
      ensures ended ==> Rest() == []
      ensures !ended ==> chunk.Some?
      ensures !ended ==> |network| < |old(network)| || (network == old(network) && offset < |chunk.value|)
    {
      ended := false;
      if chunk.None? || offset == |chunk.value| {
        if network == [] {
          return true;
        }
        FlattenFront(network);
        ghost var body := Chunks();
        delivered := delivered + [network[0]];
        chunk, offset, network := Some(network[0]), 0, network[1..];
        assert Chunks() == body;
      }
    }

    /** The next bytes of the present chunk. */
    method Advance(amount: nat) returns (bytes: seq<byte>)
      requires Valid() && chunk.Some? && offset + amount <= |chunk.value|
      modifies this`offset
      ensures Valid() && |bytes| == amount && old(Rest()) == bytes + Rest() && Chunks() == old(Chunks())
      ensures offset == old(offset) + amount
    {
      bytes := chunk.value[offset..offset + amount];
      CutInTwo(chunk.value, offset, amount, Flatten(network));
      offset := offset + amount;
    }

    /** Exactly the next bytes, or nothing if the body ends before. */
    method Read(length: nat) returns (output: Option<seq<byte>>)
      requires Valid()
      modifies this
      ensures Valid()
      ensures output.Some? <==> length <= |old(Rest())|
      ensures output.Some? ==> output.value == old(Rest())[..length] && Rest() == old(Rest())[length..]
      ensures Chunks() == old(Chunks())
      ensures output.Some? && (length > 0 || old(InChunk())) ==> InChunk()
    {
      hide Flatten, Rest, Chunks;
      ghost var body := Rest();
      var bytes := [];
      while |bytes| < length
        invariant Valid() && |bytes| <= length && body == bytes + Rest() && Chunks() == old(Chunks())
        invariant |bytes| == length && (length > 0 || old(InChunk())) ==> InChunk()
        decreases |network|, length - |bytes|
      {
        var ended := Refill();
        if ended {
          return None;
        }
        var next := Advance(Min(length - |bytes|, |chunk.value| - offset));
        Rejoin(bytes, next, Rest());
        bytes := bytes + next;
      }
      output := Some(bytes);
    }

    /** The chunks of a stream over the next bytes; a body that ends before
        breaks the stream. */
    method Take(length: nat) returns (chunks: seq<seq<byte>>, broken: bool)
      requires Valid()
      modifies this
      ensures Valid()
      ensures broken <==> |old(Rest())| < length
      ensures !broken ==> Flatten(chunks) == old(Rest())[..length] && Rest() == old(Rest())[length..]
      ensures broken ==> |Flatten(chunks)| < length
      ensures Chunks() == old(Chunks())
      ensures !broken && old(InChunk()) ==> InChunk()
    {
      hide Flatten, Rest, Chunks, InChunk;
      ghost var body := Rest();
      FlattenNothing();
      var remaining: nat := length;
      chunks, broken := [], false;
      while remaining > 0
        invariant Valid() && remaining <= length
        invariant |Flatten(chunks)| + remaining == length && body == Flatten(chunks) + Rest()
        invariant Chunks() == old(Chunks())
        invariant old(InChunk()) ==> InChunk()
      {
        ghost var rest := Rest();
        var next := Read(Min(TAKE_SIZE, remaining));
        if next.None? {
          return chunks, true;
        }
        FlattenAppend(chunks, next.value);
        assert rest == next.value + Rest();
        Rejoin(Flatten(chunks), next.value, Rest());
        remaining := remaining - |next.value|;
        chunks := chunks + [next.value];
      }
      assert Flatten(chunks) == body[..length] && Rest() == body[length..];
    }

    /** Nothing may follow, not even an empty chunk, and the connection must end
        in order. */
    method Finish() returns (ended: bool)
      requires Valid()
      modifies this
      ensures Valid() && released && Chunks() == old(Chunks())
      ensures ended <==> old(Rest()) == [] && old(network) == [] && !cut
    {
      ended := chunk.None? || offset == |chunk.value|;
      if ended {
        ended := network == [] && !cut;
        if network != [] {
          FlattenFront(network);
          ghost var body := Chunks();
          delivered := delivered + [network[0]];
          chunk, offset, network := Some(network[0]), |network[0]|, network[1..];
          assert Chunks() == body;
        }
      }
      released := true;
    }

    method Cancel()
      requires Valid()
      modifies this`released
      ensures Valid() && released
    {
      released := true;
    }
  }

  // --- storing a batch ----------------------------------------------------------------------

  datatype BatchOutcome = Stored | Rejected | StoreFailed | BrowserDied

  function ResourceFile(articleId: string, contentId: string): FileId {
    "article:" + articleId + ":bundle:resource:" + contentId
  }

  /** The files after the first payloads were stored under their resources. */
  function Updated(
    files: map<FileId, seq<byte>>, articleId: string, resources: seq<Resource>, payloads: seq<seq<byte>>)
    : map<FileId, seq<byte>>
    requires |payloads| <= |resources|
  {
    if payloads == [] then files
    else
      var last := |payloads| - 1;
      var before := Updated(files, articleId, resources, payloads[..last]);
      before[ResourceFile(articleId, resources[last].contentId) := payloads[last]]
  }

  function PayloadOf(frames: seq<byte>, expected: Resource): seq<byte>
    requires StartsWith(frames, expected)
  {
    frames[ITEM_HEADER_SIZE..ITEM_HEADER_SIZE + expected.storedSize]
  }

  function WithPayload(
    files: map<FileId, seq<byte>>, articleId: string, expected: Resource, frames: seq<byte>): map<FileId, seq<byte>>
    requires StartsWith(frames, expected)
  {
    files[ResourceFile(articleId, expected.contentId) := PayloadOf(frames, expected)]
  }

  /** Stores the next resource of the body, or rejects the body. */
  method StoreNext(reader: ResponseByteReader, store: ExtentFileStore, articleId: string, expected: Resource)
    returns (r: BatchOutcome)
    requires reader.Valid() && store.Valid()
    modifies reader, store
    ensures reader.Valid() && store.Valid() && reader.Chunks() == old(reader.Chunks())
    ensures r.Stored? ==> reader.InChunk()
    ensures r.Rejected? ==> !StartsWith(old(reader.Rest()), expected)
    ensures r.Stored? ==>
              && StartsWith(old(reader.Rest()), expected)
              && reader.Rest() == old(reader.Rest())[ITEM_HEADER_SIZE + expected.storedSize..]
              && store.Files() == WithPayload(old(store.Files()), articleId, expected, old(reader.Rest()))
    ensures !r.Stored? ==>
              || store.Files() == old(store.Files())
              || (!r.Rejected? && StartsWith(old(reader.Rest()), expected)
                  && store.Files() == WithPayload(old(store.Files()), articleId, expected, old(reader.Rest())))
    ensures false in store.script ==> false in old(store.script)
    ensures r.StoreFailed? ==> false in old(store.script)
    ensures r.BrowserDied? ==> store.script == []
  {
    hide Flatten, Hex, FromLittleEndian, Consistent, View, reader.Chunks, reader.InChunk;
    ghost var frames := reader.Rest();
    var header := reader.Read(ITEM_HEADER_SIZE);
    if header.None? {
      return Rejected;
    }
    var contentId := Hex(header.value[..ID_SIZE]);
    var size := FromLittleEndian(header.value[ID_SIZE..]);
    if contentId != expected.contentId || size != expected.storedSize {
      return Rejected;
    }
    var chunks, broken := reader.Take(size);
    ghost var files := store.Files();
    var replaced := store.Replace(ResourceFile(articleId, contentId), size, chunks, broken, None);
    assert !broken ==> Flatten(chunks) == PayloadOf(frames, expected);
    match replaced {
      case Done(_) => r := Stored;
      case Failed(error) => r := if error.StorageAborted? then StoreFailed else Rejected;
      case Crashed => r := BrowserDied;
    }
  }

  lemma PayloadsContinue(frames: seq<byte>, resources: seq<Resource>, count: nat, rest: seq<byte>, done: seq<seq<byte>>)
    requires count < |resources| && StartsWith(rest, resources[count])
    requires Payloads(frames, resources) == done + Payloads(rest, resources[count..])
    requires Leftover(frames, resources) == Leftover(rest, resources[count..])
    ensures var next := rest[ITEM_HEADER_SIZE + resources[count].storedSize..];
            && Payloads(frames, resources)
               == done + [PayloadOf(rest, resources[count])] + Payloads(next, resources[count + 1..])
            && Leftover(frames, resources) == Leftover(next, resources[count + 1..])
  {
    assert resources[count..][0] == resources[count] && resources[count..][1..] == resources[count + 1..];
    var next := rest[ITEM_HEADER_SIZE + resources[count].storedSize..];
    assert Payloads(rest, resources[count..])
        == [PayloadOf(rest, resources[count])] + Payloads(next, resources[count + 1..]);
  }

  lemma PayloadsEnd(frames: seq<byte>, resources: seq<Resource>, count: nat, rest: seq<byte>, done: seq<seq<byte>>)
    requires count < |resources| && |done| == count && !StartsWith(rest, resources[count])
    requires Payloads(frames, resources) == done + Payloads(rest, resources[count..])
    ensures Payloads(frames, resources) == done
  {
    assert resources[count..][0] == resources[count];
  }

  lemma OneMoreUpdated(
    files: map<FileId, seq<byte>>, articleId: string, resources: seq<Resource>, done: seq<seq<byte>>,
    payload: seq<byte>)
    requires |done| < |resources|
    ensures Updated(files, articleId, resources, done + [payload])
         == Updated(files, articleId, resources, done)[ResourceFile(articleId, resources[|done|].contentId) := payload]
  {
    assert (done + [payload])[..|done|] == done;
  }

  /** Stores one resource after the other until one is not stored. */
  method StoreAll(
    reader: ResponseByteReader, store: ExtentFileStore, articleId: string, resources: seq<Resource>)
    returns (r: BatchOutcome, ghost stored: nat)
    requires reader.Valid() && store.Valid() && reader.InChunk()
    modifies reader, store
    ensures reader.Valid() && store.Valid() && reader.Chunks() == old(reader.Chunks())
    ensures r.Stored? ==> reader.InChunk()
    ensures stored <= |Payloads(old(reader.Rest()), resources)|
    ensures store.Files()
         == Updated(old(store.Files()), articleId, resources, Payloads(old(reader.Rest()), resources)[..stored])
    ensures r.Stored? ==> stored == |resources| && reader.Rest() == Leftover(old(reader.Rest()), resources)
    ensures r.Rejected? ==> stored == |Payloads(old(reader.Rest()), resources)| < |resources|
    ensures r.StoreFailed? ==> false in old(store.script)
    ensures r.BrowserDied? ==> store.script == []
  {
    hide Flatten, Payloads, Leftover, StartsWith, Updated, FromLittleEndian;
    ghost var frames, files := reader.Rest(), store.Files();
    NoPayloads(files, articleId, resources, frames);
    ghost var done := [];
    var next := 0;
    while next < |resources|
      invariant next <= |resources| && |done| == next
      invariant reader.Valid() && store.Valid() && reader.Chunks() == old(reader.Chunks()) && reader.InChunk()
      invariant Payloads(frames, resources) == done + Payloads(reader.Rest(), resources[next..])
      invariant Leftover(frames, resources) == Leftover(reader.Rest(), resources[next..])
      invariant store.Files() == Updated(files, articleId, resources, done)
      invariant false in store.script ==> false in old(store.script)
    {
      ghost var rest := reader.Rest();
      r := StoreNext(reader, store, articleId, resources[next]);
      if StartsWith(rest, resources[next]) {
        PayloadsContinue(frames, resources, next, rest, done);
        OneMoreUpdated(files, articleId, resources, done, PayloadOf(rest, resources[next]));
      }
      if !r.Stored? {
        if r.Rejected? {
          PayloadsEnd(frames, resources, next, rest, done);
        }
        stored := next;
        assert Payloads(frames, resources)[..next] == done;
        if StartsWith(rest, resources[next]) {
          assert Payloads(frames, resources)[..next + 1] == done + [PayloadOf(rest, resources[next])];
          if store.Files() != Updated(files, articleId, resources, done) {
            stored := next + 1;
          }
        }
        return;
      }
      done := done + [PayloadOf(rest, resources[next])];
      next := next + 1;
    }
    AllPayloads(reader.Rest());
    assert resources[next..] == [] && Payloads(frames, resources) == done;
    assert Payloads(frames, resources)[..next] == done;
    return Stored, next;
  }

  /** The connection ends in order, and its last chunk is not empty. */
  predicate EndsWell(network: seq<seq<byte>>, cut: bool) {
    !cut && network != [] && network[|network| - 1] != []
  }

  lemma {:induction false} NothingLeftInside(chunks: seq<seq<byte>>)
    requires Flatten(chunks) == [] && chunks != []
    ensures chunks[|chunks| - 1] == []
  {
  }

  /** The end of a body that was read up to its last byte. */
  lemma ReadToTheEnd(reader: ResponseByteReader, network: seq<seq<byte>>)
    requires reader.Valid() && reader.InChunk() && reader.Chunks() == network && reader.Rest() == []
    ensures EndsWell(network, reader.cut) <==> reader.network == [] && !reader.cut
  {
    if reader.network != [] {
      NothingLeftInside(reader.network);
      assert network[|network| - 1] == reader.network[|reader.network| - 1];
    } else {
      assert network[|network| - 1] == reader.chunk.value;
    }
  }

  /** One more empty chunk at the end is not one more byte, and turns every body
      into one that is not accepted. */
  lemma EmptyTailIsFatal(network: seq<seq<byte>>, cut: bool)
    ensures Flatten(network + [[]]) == Flatten(network) && !EndsWell(network + [[]], cut)
  {
    FlattenAppend(network, []);
  }

  /** Stores the resources of one response. After the call the files hold the
      payloads of some leading resources, of all of them on success, and of every
      whole and expected one when the body is rejected. Unless the store fails or
      the browser dies, the body is accepted if and only if its bytes answer the
      request and it ends well; where else the network cut it does not matter. */
  method FetchResourceBatch(
    network: seq<seq<byte>>, cut: bool, store: ExtentFileStore, articleId: string, resources: seq<Resource>)
    returns (r: BatchOutcome, ghost stored: nat)
    requires store.Valid()
    modifies store
    ensures store.Valid()
    ensures stored <= |Payloads(Frames(Flatten(network)), resources)|
    ensures store.Files()
         == Updated(old(store.Files()), articleId, resources, Payloads(Frames(Flatten(network)), resources)[..stored])
    ensures r.Stored? ==> Answers(Flatten(network), resources) && EndsWell(network, cut) && stored == |resources|
    ensures r.Rejected? ==> !(Answers(Flatten(network), resources) && EndsWell(network, cut))
    ensures r.Rejected? ==>
              var body := Flatten(network);
              stored == if HasHeader(body, |resources|) then |Payloads(Frames(body), resources)| else 0
    ensures r.StoreFailed? ==> false in old(store.script)
    ensures r.BrowserDied? ==> store.script == []
  {
    hide Flatten, Payloads, Leftover, Updated, FromLittleEndian, MAGIC, EndsWell;
    NoPayloads(store.Files(), articleId, resources, Frames(Flatten(network)));
    stored := 0;
    var reader := new ResponseByteReader(network, cut);
    var header := reader.Read(HEADER_SIZE);
    if header.None? {
      reader.Cancel();
      return Rejected, 0;
    }
    if !GoodHeader(header.value, |resources|) {
      reader.Cancel();
      return Rejected, 0;
    }
    r, stored := StoreAll(reader, store, articleId, resources);
    if !r.Stored? {
      reader.Cancel();
      return;
    }
    if reader.Rest() == [] {
      ReadToTheEnd(reader, network);
    }
    var ended := reader.Finish();
    r := if ended then Stored else Rejected;
  }

  lemma NoPayloads(files: map<FileId, seq<byte>>, articleId: string, resources: seq<Resource>, frames: seq<byte>)
    ensures Updated(files, articleId, resources, Payloads(frames, resources)[..0]) == files
    ensures resources[0..] == resources
  {
  }

  lemma AllPayloads(rest: seq<byte>)
    ensures Payloads(rest, []) == [] && Leftover(rest, []) == rest
  {
  }

  // --- from the server to the files ---------------------------------------------------------

  /** Storing under distinct files keeps every payload. */
  lemma {:induction false} UpdatedHolds(
    files: map<FileId, seq<byte>>, articleId: string, resources: seq<Resource>, payloads: seq<seq<byte>>, k: nat)
    requires k < |payloads| <= |resources|
    requires forall i, j :: 0 <= i < j < |resources| ==> resources[i].contentId != resources[j].contentId
    ensures var file := ResourceFile(articleId, resources[k].contentId);
            var after := Updated(files, articleId, resources, payloads);
            file in after && after[file] == payloads[k]
    decreases |payloads|
  {
    var last := |payloads| - 1;
    if k < last {
      UpdatedHolds(files, articleId, resources, payloads[..last], k);
      DistinctFiles(articleId, resources[k].contentId, resources[last].contentId);
    }
  }

  lemma DistinctFiles(articleId: string, one: string, other: string)
    requires one != other
    ensures ResourceFile(articleId, one) != ResourceFile(articleId, other)
  {
    var prefix := "article:" + articleId + ":bundle:resource:";
    assert ResourceFile(articleId, one)[|prefix|..] == one && ResourceFile(articleId, other)[|prefix|..] == other;
  }

  /** Every item is stored in its file. */
  ghost predicate HoldsPayloads(files: map<FileId, seq<byte>>, articleId: string, items: seq<Item>) {
    forall k :: 0 <= k < |items| ==>
      var file := ResourceFile(articleId, Hex(items[k].id)); file in files && files[file] == items[k].payload
  }

  /** The files of no item are as before. */
  ghost predicate KeepsOtherFiles(
    before: map<FileId, seq<byte>>, after: map<FileId, seq<byte>>, articleId: string, items: seq<Item>)
  {
    forall file ::
      file in before && (forall k :: 0 <= k < |items| ==> file != ResourceFile(articleId, Hex(items[k].id)))
      ==> file in after && after[file] == before[file]
  }

  /** A batch the server sends, split by the network in any way: it is rejected
      only for the way it ends, and then and on success, so unless storage fails
      or the browser dies, every resource file holds exactly its payload. */
  method TransferBatch(
    network: seq<seq<byte>>, cut: bool, store: ExtentFileStore, articleId: string, ghost items: seq<Item>,
    resources: seq<Resource>)
    returns (r: BatchOutcome)
    requires store.Valid()
    requires (forall k :: 0 <= k < |items| ==> Sendable(items[k])) && |items| < Power256(2)
    requires forall i, j :: 0 <= i < j < |items| ==> items[i].id != items[j].id
    requires Flatten(network) == Body(items) && resources == ResourcesOf(items)
    modifies store
    ensures store.Valid()
    ensures r.Stored? ==> EndsWell(network, cut)
    ensures r.Rejected? ==> !EndsWell(network, cut)
    ensures r.Stored? || r.Rejected? ==> HoldsPayloads(store.Files(), articleId, items)
    ensures KeepsOtherFiles(old(store.Files()), store.Files(), articleId, items)
  {
    hide Flatten, Payloads, Leftover, Updated, Body, Answers, Power256, Hex, HoldsPayloads, KeepsOtherFiles, EndsWell;
    BodyRoundTrip(items);
    AnswerHasHeader(Body(items), resources);
    ghost var files := store.Files();
    ghost var stored;
    r, stored := FetchResourceBatch(network, cut, store, articleId, resources);
    if r.Stored? || r.Rejected? {
      assert PayloadsOf(items)[..stored] == PayloadsOf(items);
      EveryPayloadStored(files, articleId, items, PayloadsOf(items)[..stored]);
    }
    OtherFilesKept(files, articleId, items, PayloadsOf(items)[..stored]);
  }

  lemma AnswerHasHeader(body: seq<byte>, resources: seq<Resource>)
    requires Answers(body, resources)
    ensures HasHeader(body, |resources|) && |Payloads(Frames(body), resources)| == |resources|
  {
  }

  lemma EveryPayloadStored(
    files: map<FileId, seq<byte>>, articleId: string, items: seq<Item>, payloads: seq<seq<byte>>)
    requires forall i, j :: 0 <= i < j < |items| ==> items[i].id != items[j].id
    requires payloads == PayloadsOf(items)
    ensures HoldsPayloads(Updated(files, articleId, ResourcesOf(items), payloads), articleId, items)
  {
    hide Updated, Hex, ResourceFile;
    var resources := ResourcesOf(items);
    forall i, j | 0 <= i < j < |resources| ensures resources[i].contentId != resources[j].contentId {
      if Hex(items[i].id) == Hex(items[j].id) {
        HexIsInjective(items[i].id, items[j].id);
      }
    }
    forall k | 0 <= k < |items|
      ensures var file := ResourceFile(articleId, Hex(items[k].id));
              var after := Updated(files, articleId, resources, payloads);
              file in after && after[file] == items[k].payload
    {
      UpdatedHolds(files, articleId, resources, payloads, k);
      assert resources[k].contentId == Hex(items[k].id);
    }
  }

  lemma OtherFilesKept(
    files: map<FileId, seq<byte>>, articleId: string, items: seq<Item>, payloads: seq<seq<byte>>)
    requires |payloads| <= |items|
    ensures KeepsOtherFiles(files, Updated(files, articleId, ResourcesOf(items), payloads), articleId, items)
  {
    hide Updated, Hex, ResourceFile;
    var resources := ResourcesOf(items);
    forall file | file in files && forall k :: 0 <= k < |items| ==> file != ResourceFile(articleId, Hex(items[k].id))
      ensures var after := Updated(files, articleId, resources, payloads); file in after && after[file] == files[file]
    {
      forall k | 0 <= k < |resources| ensures file != ResourceFile(articleId, resources[k].contentId) {
        assert resources[k].contentId == Hex(items[k].id);
      }
      UpdatedElsewhere(files, articleId, resources, payloads, file);
    }
  }

  lemma {:induction false} UpdatedElsewhere(
    files: map<FileId, seq<byte>>, articleId: string, resources: seq<Resource>, payloads: seq<seq<byte>>, file: FileId)
    requires |payloads| <= |resources| && file in files
    requires forall k :: 0 <= k < |resources| ==> file != ResourceFile(articleId, resources[k].contentId)
    ensures var after := Updated(files, articleId, resources, payloads);
            file in after && after[file] == files[file]
    decreases |payloads|
  {
    if payloads != [] {
      UpdatedElsewhere(files, articleId, resources, payloads[..|payloads| - 1], file);
    }
  }
}
