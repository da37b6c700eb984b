/** The IPC wire codec (src/utils.cpp): a message is framed as a 4-byte handle
    length, the handle bytes, a 4-byte payload length and the payload bytes.
    The payload is carried as its UTF-8 bytes; the conversion between wide
    strings and UTF-8 is not part of this model. */
module WireCodec {
  import opened Bytes

  /** `IPCMsgData`: the topic handle (a `char` C string) and the payload (a
      wide C string, held as its UTF-8 bytes). `None` is a null pointer. Each
      field holds the bytes of its buffer before the terminator; a decoded
      buffer may contain NUL bytes, which C-string readers stop at. */
  datatype MsgData = MsgData(handle: Option<seq<byte>>, data: Option<seq<byte>>)

  /** `{ nullptr, nullptr }`: the result of a failed decode. */
  const NullMsg := MsgData(None, None)

  /** The bytes `serialize_for_ipc` takes from one field: nothing for a null
      pointer, otherwise the C string's contents, cut to a 32-bit length. */
  function FieldBytes(f: Option<seq<byte>>): (r: seq<byte>)
    ensures |r| < TWO_32
  {
    if f.None? then [] else Fit(CStr(f.value))
  }

  /** The frame of a handle and a payload. */
  function Frame(h: seq<byte>, d: seq<byte>): seq<byte>
    requires |h| < TWO_32 && |d| < TWO_32
  {
    U32LE(|h|) + h + U32LE(|d|) + d
  }

  /** What `serialize_for_ipc` writes for a message. */
  function Serialize(m: MsgData): seq<byte>
  {
    Frame(FieldBytes(m.handle), FieldBytes(m.data))
  }

  /** What `deserialize_from_ipc` returns for a buffer (`None` is a null
      pointer; the buffer length is the length of the sequence). */
  function Decode(buf: Option<seq<byte>>): MsgData
  {
    if buf.None? || |buf.value| == 0 then NullMsg
    else
      var b := buf.value;
      if |b| < 4 then NullMsg
      else
        var hl := U32Value(b[..4]);
        if |b| - 4 < hl then NullMsg
        else if |b| - 4 - hl < 4 then NullMsg
        else
          var dl := U32Value(b[4 + hl..8 + hl]);
          if |b| - 8 - hl < dl then NullMsg
          else MsgData(Some(b[4..4 + hl]), Some(b[8 + hl..8 + hl + dl]))
  }

  /** `b` starts with the frame of `h` and `d`. */
  ghost predicate StartsWithFrame(b: seq<byte>, h: seq<byte>, d: seq<byte>)
  {
    |h| < TWO_32 && |d| < TWO_32 && Frame(h, d) <= b
  }

  // ---------------------------------------------------------------------
  // Properties of the codec

  /** The serialized length is 4 + |handle| + 4 + |payload|, where a null
      handle or null payload contributes no bytes. */
  lemma SerializedLength(m: MsgData)
    ensures |Serialize(m)| == 4 + |FieldBytes(m.handle)| + 4 + |FieldBytes(m.data)|
    ensures m.handle.None? ==> |Serialize(m)| == 8 + |FieldBytes(m.data)|
    ensures m.data.None? ==> |Serialize(m)| == 8 + |FieldBytes(m.handle)|
  {
  }

  /** The frame layout: the handle length, the handle, the payload length,
      the payload, each where the decoder looks for it. */
  lemma {:induction false} FrameLayout(h: seq<byte>, d: seq<byte>)
    requires |h| < TWO_32 && |d| < TWO_32
    ensures |Frame(h, d)| == 8 + |h| + |d|
    ensures U32Value(Frame(h, d)[..4]) == |h|
    ensures Frame(h, d)[4..4 + |h|] == h
    ensures U32Value(Frame(h, d)[4 + |h|..8 + |h|]) == |d|
    ensures Frame(h, d)[8 + |h|..] == d
  {
    var f := Frame(h, d);
    assert f[..4] == U32LE(|h|);
    assert f[4 + |h|..8 + |h|] == U32LE(|d|);
    U32ValueOfU32LE(|h|);
    U32ValueOfU32LE(|d|);
  }

  /** A buffer that starts with a frame decodes to that frame's handle and
      payload, whatever follows it. */
  lemma {:induction false} DecodeFramePrefix(h: seq<byte>, d: seq<byte>, tail: seq<byte>)
    requires |h| < TWO_32 && |d| < TWO_32
    ensures Decode(Some(Frame(h, d) + tail)) == MsgData(Some(h), Some(d))
  {
    var f := Frame(h, d);
    var b := f + tail;
    FrameLayout(h, d);
    assert b[..4] == f[..4];
    assert b[4..4 + |h|] == f[4..4 + |h|];
    assert b[4 + |h|..8 + |h|] == f[4 + |h|..8 + |h|];
    assert b[8 + |h|..8 + |h| + |d|] == f[8 + |h|..];
  }

  /** Round trip: decoding a serialized message gives back its handle and its
      payload as the serializer read them. A null handle comes back as an
      empty, non-null handle, and a null or empty payload as an empty,
      non-null payload. */
  lemma RoundTrip(m: MsgData)
    ensures Decode(Some(Serialize(m))) == MsgData(Some(FieldBytes(m.handle)), Some(FieldBytes(m.data)))
    ensures m.handle.None? ==> Decode(Some(Serialize(m))).handle == Some([])
    ensures m.data.None? ==> Decode(Some(Serialize(m))).data == Some([])
  {
    DecodeFramePrefix(FieldBytes(m.handle), FieldBytes(m.data), []);
    assert Frame(FieldBytes(m.handle), FieldBytes(m.data)) + [] == Serialize(m);
  }

  /** Round trip for C strings under 4 GiB: the decoded message is the one
      that was serialized. */
  lemma RoundTripCStrings(h: seq<byte>, d: seq<byte>)
    requires |h| < TWO_32 && |d| < TWO_32
    requires forall i :: 0 <= i < |h| ==> h[i] != 0
    requires forall i :: 0 <= i < |d| ==> d[i] != 0
    ensures Decode(Some(Serialize(MsgData(Some(h), Some(d))))) == MsgData(Some(h), Some(d))
  {
    CStrOfNulFree(h);
    CStrOfNulFree(d);
    RoundTrip(MsgData(Some(h), Some(d)));
  }

  /** A null buffer and an empty buffer decode to `{ nullptr, nullptr }`, and
      every decode yields either that or two non-null fields. */
  lemma DecodeNullOrEmpty(buf: Option<seq<byte>>)
    ensures Decode(None) == NullMsg && Decode(Some([])) == NullMsg
    ensures Decode(buf) == NullMsg || (Decode(buf).handle.Some? && Decode(buf).data.Some?)
  {
  }

  /** Each bounds check of the decoder rejects its truncated frame. */
  lemma DecodeRejectsTruncated(b: seq<byte>)
    ensures |b| < 4 ==> Decode(Some(b)) == NullMsg
    ensures |b| >= 4 && |b| - 4 < U32Value(b[..4]) ==> Decode(Some(b)) == NullMsg
    ensures |b| >= 4 && |b| - 4 >= U32Value(b[..4]) && |b| - 4 - U32Value(b[..4]) < 4
            ==> Decode(Some(b)) == NullMsg
    ensures |b| >= 4 && |b| - 4 - U32Value(b[..4]) >= 4 &&
            |b| - 8 - U32Value(b[..4]) < U32Value(b[4 + U32Value(b[..4])..8 + U32Value(b[..4])])
            ==> Decode(Some(b)) == NullMsg
  {
  }

  /** A successful decode read a frame at the start of the buffer. */
  lemma {:induction false} DecodedStartsWithFrame(b: seq<byte>)
    requires Decode(Some(b)) != NullMsg
    ensures Decode(Some(b)).handle.Some? && Decode(Some(b)).data.Some?
    ensures StartsWithFrame(b, Decode(Some(b)).handle.value, Decode(Some(b)).data.value)
  {
    var hl: int := U32Value(b[..4]);
    var dl: int := U32Value(b[4 + hl..8 + hl]);
    var h := b[4..4 + hl];
    var d := b[8 + hl..8 + hl + dl];
    U32LEOfU32Value(b[..4]);
    U32LEOfU32Value(b[4 + hl..8 + hl]);
    assert Frame(h, d) == b[..8 + hl + dl];
  }

  /** Decoding fails exactly when the buffer does not start with a frame. */
  lemma DecodeFailsIffNoFrame(b: seq<byte>)
    ensures Decode(Some(b)) == NullMsg <==> forall h, d :: !StartsWithFrame(b, h, d)
  {
    if Decode(Some(b)) != NullMsg {
      DecodedStartsWithFrame(b);
    } else {
      forall h, d | StartsWithFrame(b, h, d)
        ensures false
      {
        assert Frame(h, d) + b[|Frame(h, d)|..] == b;
        DecodeFramePrefix(h, d, b[|Frame(h, d)|..]);
      }
    }
  }

  /** Bytes after the declared payload are ignored: appending to a buffer that
      decodes does not change what it decodes to. */
  lemma TrailingBytesIgnored(b: seq<byte>, tail: seq<byte>)
    requires Decode(Some(b)) != NullMsg
    ensures Decode(Some(b + tail)) == Decode(Some(b))
  {
    DecodedStartsWithFrame(b);
    var r := Decode(Some(b));
    var f := Frame(r.handle.value, r.data.value);
    DecodeFramePrefix(r.handle.value, r.data.value, b[|f|..] + tail);
    assert f + (b[|f|..] + tail) == b + tail;
  }

  // ---------------------------------------------------------------------
  // Buffers and the imperative codec

  /** `free_ipc_msg_data`: both fields end up null. */
  function FreeIpcMsgData(m: MsgData): MsgData
  {
    MsgData(None, None)
  }

  /** Releasing message data leaves both fields null, and releasing twice is
      the same as releasing once. */
  lemma FreeIpcMsgDataIdempotent(m: MsgData)
    ensures FreeIpcMsgData(m).handle.None? && FreeIpcMsgData(m).data.None?
    ensures FreeIpcMsgData(FreeIpcMsgData(m)) == FreeIpcMsgData(m)
  {
  }

  /** `SerializedIPCBuffer`: an owned byte buffer and its length. */
  class SerializedIpcBuffer {
    var data: array?<byte>
    var length: nat

    constructor ()
      ensures data == null && length == 0
    {
      data := null;
      length := 0;
    }

    /** `free_serialized_ipc_buffer`: afterwards the buffer is null and its
        length 0, whatever it was before, so a second call changes nothing. */
    method Free()
      modifies this
      ensures data == null && length == 0
    {
      data := null;
      length := 0;
    }
  }

  /** The four parts of a frame, each at its offset. */
  lemma FrameParts(h: seq<byte>, d: seq<byte>)
    requires |h| < TWO_32 && |d| < TWO_32
    ensures |Frame(h, d)| == 8 + |h| + |d|
    ensures Frame(h, d)[..4] == U32LE(|h|)
    ensures Frame(h, d)[4..4 + |h|] == h
    ensures Frame(h, d)[4 + |h|..8 + |h|] == U32LE(|d|)
    ensures Frame(h, d)[8 + |h|..] == d
  {
  }

  /** Two sequences that agree up to `i` and between `i` and `j` agree up to `j`. */
  lemma PrefixExtend(s: seq<byte>, t: seq<byte>, i: nat, j: nat)
    requires i <= j <= |s| && j <= |t|
    requires s[..i] == t[..i] && s[i..j] == t[i..j]
    ensures s[..j] == t[..j]
  {
    assert s[..j] == s[..i] + s[i..j];
    assert t[..j] == t[..i] + t[i..j];
  }

  /** `memcpy(dst + at, src, |src|)`. */
  method CopyInto(dst: array<byte>, at: nat, src: seq<byte>)
    requires at + |src| <= dst.Length
    modifies dst
    ensures dst[..at] == old(dst[..at])
    ensures dst[at..at + |src|] == src
    ensures dst[at + |src|..] == old(dst[at + |src|..])
  {
    var i := 0;
    while i < |src|
      invariant 0 <= i <= |src|
      invariant forall k :: 0 <= k < at ==> dst[k] == old(dst[k])
      invariant forall k :: 0 <= k < i ==> dst[at + k] == src[k]
      invariant forall k :: at + i <= k < dst.Length ==> dst[k] == old(dst[k])
    {
      dst[at + i] := src[i];
      i := i + 1;
    }
  }

  /** `serialize_for_ipc`: allocates a buffer of exactly the frame's size and
      fills it by advancing a cursor through successive copies. */
  method SerializeForIpc(m: MsgData) returns (buffer: SerializedIpcBuffer)
    ensures fresh(buffer) && buffer.data != null && fresh(buffer.data)
    ensures buffer.data[..] == Serialize(m)
    ensures buffer.length == buffer.data.Length == |Serialize(m)|
  {
    var handle := FieldBytes(m.handle);
    var payload := FieldBytes(m.data);
    ghost var frame := Frame(handle, payload);
    FrameParts(handle, payload);
    var total := 4 + |handle| + 4 + |payload|;
    var out := new byte[total];
    CopyInto(out, 0, U32LE(|handle|));
    var pos := 4;
    assert out[..pos] == frame[..pos];
    if |handle| > 0 {
      CopyInto(out, pos, handle);
      PrefixExtend(out[..], frame, 4, 4 + |handle|);
      pos := pos + |handle|;
    }
    CopyInto(out, pos, U32LE(|payload|));
    PrefixExtend(out[..], frame, pos, pos + 4);
    pos := pos + 4;
    if |payload| > 0 {
      CopyInto(out, pos, payload);
      PrefixExtend(out[..], frame, pos, total);
    }
    assert out[..] == out[..total];
    buffer := new SerializedIpcBuffer();
    buffer.data := out;
    buffer.length := total;
  }

  /** Copies `n` bytes starting at `from` into a fresh NUL-terminated buffer
      and returns the bytes before the terminator. */
  method ReadString(src: array<byte>, from: nat, n: nat) returns (s: seq<byte>)
    requires from + n <= src.Length
    ensures s == src[from..from + n]
  {
    var alloc := new byte[n + 1];
    var i := 0;
    while i < n
      invariant 0 <= i <= n
      invariant forall k :: 0 <= k < i ==> alloc[k] == src[from + k]
    {
      alloc[i] := src[from + i];
      i := i + 1;
    }
    alloc[n] := 0;
    s := alloc[..n];
  }

  lemma SliceOfPrefix(s: seq<byte>, n: nat, i: nat, j: nat)
    requires i <= j <= n <= |s|
    ensures s[..n][i..j] == s[i..j]
  {
    assert forall k :: 0 <= k < j - i ==> s[..n][i..j][k] == s[i + k];
  }

  /** `deserialize_from_ipc`: walks a cursor through the buffer with a bounds
      check before every read; any failed check yields `{ nullptr, nullptr }`. */
  method DeserializeFromIpc(buf: array?<byte>, length: nat) returns (r: MsgData)
    requires buf != null ==> length <= buf.Length
    ensures r == Decode(if buf == null then None else Some(buf[..length]))
  {
    r := NullMsg;
    if buf == null || length == 0 {
      return;
    }
    ghost var b := buf[..length];
    var pos := 0;
    if length - pos < 4 {
      return;
    }
    var handleLen: int := U32Value(buf[pos..pos + 4]);
    SliceOfPrefix(buf[..], length, 0, 4);
    pos := pos + 4;
    if length - pos < handleLen {
      return;
    }
    var handle: seq<byte>;
    if handleLen > 0 {
      handle := ReadString(buf, pos, handleLen);
    } else {
      handle := [];
    }
    SliceOfPrefix(buf[..], length, 4, 4 + handleLen);
    assert handle == b[4..4 + handleLen];
    pos := pos + handleLen;
    if length - pos < 4 {
      return;
    }
    var dataLen: int := U32Value(buf[pos..pos + 4]);
    SliceOfPrefix(buf[..], length, pos, pos + 4);
    pos := pos + 4;
    if length - pos < dataLen {
      return;
    }
    var data: seq<byte>;
    if dataLen > 0 {
      data := buf[pos..pos + dataLen];
    } else {
      data := [];
    }
    SliceOfPrefix(buf[..], length, pos, pos + dataLen);
    assert data == b[8 + handleLen..8 + handleLen + dataLen];
    r := MsgData(Some(handle), Some(data));
  }
}
