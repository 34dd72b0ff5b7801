/** Blob: a message body in the blob store's incoming directory, with the volume it
    lives on, whether it is compressed, its digest and its size. The
    size reported is the length of the in-memory data when the data are held in memory,
    and the recorded raw size otherwise. */
module BlobStore {
  import opened Common

  /** java.io.File as a blob sees it: what getAbsolutePath() answers for it. */
  datatype File = File(absolutePath: string)

  /** A Java byte[]: its length is an int. */
  type ByteArray = s: seq<int8> | |s| <= 0x7fff_ffff

  /** A snapshot of every field of a Blob; `None` stands for null. */
  datatype BlobInfo = BlobInfo(
    file: File,
    path: string,
    volumeId: int16,
    compressed: bool,
    data: Option<ByteArray>,
    digest: Option<string>,
    rawSize: int32)

  /** The state right after construction. */
  function Initial(file: File, volumeId: int16): (b: BlobInfo)
    ensures b.file == file && b.path == file.absolutePath && b.volumeId == volumeId
    ensures !b.compressed && b.data.None? && b.digest.None? && b.rawSize == 0
  {
    BlobInfo(file, file.absolutePath, volumeId, false, None, None, 0)
  }

  /** getRawSize: the in-memory data's length when present, the recorded raw size otherwise. */
  function ReportedRawSize(b: BlobInfo): (n: int32)
    ensures b.data.Some? ==> n as int == |b.data.value|
    ensures b.data.None? ==> n == b.rawSize
  {
    match b.data
    case Some(d) => |d| as int32
    case None => b.rawSize
  }

  /** The four setters. */
  datatype Setter =
    | SetCompressed(isCompressed: bool)
    | SetInMemoryData(newData: Option<ByteArray>)
    | SetDigest(newDigest: Option<string>)
    | SetRawSize(newRawSize: int32)

  /** Each setter replaces its own field and nothing else. */
  function Apply(b: BlobInfo, op: Setter): (r: BlobInfo)
    ensures r.file == b.file && r.path == b.path && r.volumeId == b.volumeId
    ensures r.compressed == (if op.SetCompressed? then op.isCompressed else b.compressed)
    ensures r.data == (if op.SetInMemoryData? then op.newData else b.data)
    ensures r.digest == (if op.SetDigest? then op.newDigest else b.digest)
    ensures r.rawSize == (if op.SetRawSize? then op.newRawSize else b.rawSize)
  {
    match op
    case SetCompressed(c) => b.(compressed := c)
    case SetInMemoryData(d) => b.(data := d)
    case SetDigest(d) => b.(digest := d)
    case SetRawSize(n) => b.(rawSize := n)
  }

  /** The setters called in order. */
  function ApplyAll(b: BlobInfo, ops: seq<Setter>): BlobInfo
    decreases |ops|
  {
    if |ops| == 0 then b else ApplyAll(Apply(b, ops[0]), ops[1..])
  }

  /** The in-memory data last set by `ops`, or `initial` when they set none. */
  function LastData(initial: Option<ByteArray>, ops: seq<Setter>): Option<ByteArray>
    decreases |ops|
  {
    if |ops| == 0 then initial
    else if ops[|ops| - 1].SetInMemoryData? then ops[|ops| - 1].newData
    else LastData(initial, ops[..|ops| - 1])
  }

  /** The raw size last set by `ops`, or `initial` when they set none. */
  function LastRawSize(initial: int32, ops: seq<Setter>): int32
    decreases |ops|
  {
    if |ops| == 0 then initial
    else if ops[|ops| - 1].SetRawSize? then ops[|ops| - 1].newRawSize
    else LastRawSize(initial, ops[..|ops| - 1])
  }

  /** The compressed flag last set by `ops`, or `initial` when they set none. */
  function LastCompressed(initial: bool, ops: seq<Setter>): bool
    decreases |ops|
  {
    if |ops| == 0 then initial
    else if ops[|ops| - 1].SetCompressed? then ops[|ops| - 1].isCompressed
    else LastCompressed(initial, ops[..|ops| - 1])
  }

  /** The digest last set by `ops`, or `initial` when they set none. */
  function LastDigest(initial: Option<string>, ops: seq<Setter>): Option<string>
    decreases |ops|
  {
    if |ops| == 0 then initial
    else if ops[|ops| - 1].SetDigest? then ops[|ops| - 1].newDigest
    else LastDigest(initial, ops[..|ops| - 1])
  }

  lemma {:induction false} ApplyAllSnoc(b: BlobInfo, ops: seq<Setter>, op: Setter)
    ensures ApplyAll(b, ops + [op]) == Apply(ApplyAll(b, ops), op)
    decreases |ops|
  {
    if |ops| == 0 {
      assert ops + [op] == [op];
    } else {
      assert (ops + [op])[1..] == ops[1..] + [op];
      ApplyAllSnoc(Apply(b, ops[0]), ops[1..], op);
    }
  }

  /** After any sequence of setters, each settable field holds the value last set, and the
      file, path and volume are those of construction. */
  lemma {:induction false} LastSetWins(b: BlobInfo, ops: seq<Setter>)
    ensures ApplyAll(b, ops).compressed == LastCompressed(b.compressed, ops)
    ensures ApplyAll(b, ops).data == LastData(b.data, ops)
    ensures ApplyAll(b, ops).digest == LastDigest(b.digest, ops)
    ensures ApplyAll(b, ops).rawSize == LastRawSize(b.rawSize, ops)
    ensures ApplyAll(b, ops).file == b.file && ApplyAll(b, ops).path == b.path && ApplyAll(b, ops).volumeId == b.volumeId
    decreases |ops|
  {
    if |ops| > 0 {
      var init := ops[..|ops| - 1];
      assert ops == init + [ops[|ops| - 1]];
      LastSetWins(b, init);
      ApplyAllSnoc(b, init, ops[|ops| - 1]);
    }
  }

  /** The reported size follows the last in-memory data set when it is not null, and the
      last raw size set otherwise: data mask the raw size, and clearing them exposes it again. */
  lemma ReportedRawSizeAfter(b: BlobInfo, ops: seq<Setter>)
    ensures ReportedRawSize(ApplyAll(b, ops)) ==
              match LastData(b.data, ops)
              case Some(d) => |d| as int32
              case None => LastRawSize(b.rawSize, ops)
  {
    LastSetWins(b, ops);
  }

  /** The case the class comment describes: raw size set while data are held stays hidden
      until the data are dropped. */
  lemma DataMaskRawSize(b: BlobInfo, d: ByteArray, n: int32)
    ensures ReportedRawSize(ApplyAll(b, [SetInMemoryData(Some(d)), SetRawSize(n)])) as int == |d|
    ensures ReportedRawSize(ApplyAll(b, [SetInMemoryData(Some(d)), SetRawSize(n), SetInMemoryData(None)])) == n
  {
    ReportedRawSizeAfter(b, [SetInMemoryData(Some(d)), SetRawSize(n)]);
    ReportedRawSizeAfter(b, [SetInMemoryData(Some(d)), SetRawSize(n), SetInMemoryData(None)]);
    assert [SetInMemoryData(Some(d)), SetRawSize(n), SetInMemoryData(None)][..2] == [SetInMemoryData(Some(d)), SetRawSize(n)];
    assert [SetInMemoryData(Some(d)), SetRawSize(n)][..1] == [SetInMemoryData(Some(d))];
  }

  class Blob {
    const file: File
    const path: string
    const volumeId: int16
    var compressed: bool
    var data: Option<ByteArray>
    var digest: Option<string>
    /** Zero while not set. */
    var rawSize: int32

    function Info(): BlobInfo
      reads this
    {
      BlobInfo(file, path, volumeId, compressed, data, digest, rawSize)
    }

    constructor (file: File, volumeId: int16)
      ensures Info() == Initial(file, volumeId)
    {
      this.file := file;
      path := file.absolutePath;
      this.volumeId := volumeId;
      compressed := false;
      data := None;
      digest := None;
      rawSize := 0;
    }

    function GetFile(): File reads this { file }

    function GetPath(): string reads this { path }

    function GetVolumeId(): int16 reads this { volumeId }

    function IsCompressed(): bool reads this { compressed }

    function GetDigest(): Option<string> reads this { digest }

    function GetInMemoryData(): Option<ByteArray> reads this { data }

    function GetRawSize(): (n: int32)
      reads this
      ensures n == ReportedRawSize(Info())
    {
      if data.Some? then |data.value| as int32 else rawSize
    }

    method SetCompressed(isCompressed: bool)
      modifies this
      ensures Info() == Apply(old(Info()), Setter.SetCompressed(isCompressed))
    {
      compressed := isCompressed;
    }

    method SetInMemoryData(newData: Option<ByteArray>)
      modifies this
      ensures Info() == Apply(old(Info()), Setter.SetInMemoryData(newData))
    {
      data := newData;
    }

    method SetDigest(newDigest: Option<string>)
      modifies this
      ensures Info() == Apply(old(Info()), Setter.SetDigest(newDigest))
    {
      digest := newDigest;
    }

    method SetRawSize(newRawSize: int32)
      modifies this
      ensures Info() == Apply(old(Info()), Setter.SetRawSize(newRawSize))
    {
      rawSize := newRawSize;
    }
  }
}
