// The blob pipe to the sealed worker: `encodeBlob` (LeanTee/Confidential.lean) on one side, `read_u32_be` and
// `read_blob` (host/confidential/src/bin/sealed_worker.rs) on the other.

module Pipe {
  import opened Bytes
  import opened Wrappers
  import opened Framing

  const MAX_BLOB: nat := 0x100_0000

  datatype ReadError = UnexpectedEnd | BlobTooLarge

  function EncodeBlob(payload: bytes): bytes {
    BigEndian(|payload|, 4) + payload
  }

  /** What the server writes: public inputs, secret inputs, extra. */
  function Payload(public: bytes, secret: bytes, extra: bytes): bytes {
    EncodeBlob(public) + EncodeBlob(secret) + EncodeBlob(extra)
  }

  /** One `read_blob` on the unread part of the stream: the blob and what is left. */
  function Blob(s: bytes): Result<(bytes, bytes), ReadError> {
    if |s| < 4 then Err(UnexpectedEnd)
    else
      var n := FromBigEndian(s[..4]);
      if n > MAX_BLOB then Err(BlobTooLarge)
      else if |s| < 4 + n then Err(UnexpectedEnd)
      else Ok((s[4..4 + n], s[4 + n..]))
  }

  /** The three reads of the worker's `main`. */
  function ThreeBlobs(s: bytes): Result<(bytes, bytes, bytes, bytes), ReadError> {
    match Blob(s)
    case Err(e) => Err(e)
    case Ok((a, s1)) =>
      match Blob(s1)
      case Err(e) => Err(e)
      case Ok((b, s2)) =>
        match Blob(s2)
        case Err(e) => Err(e)
        case Ok((c, s3)) => Ok((a, b, c, s3))
  }

  /** Standard input of the worker: the bytes not yet read. */
  class Stdin {
    var unread: bytes

    constructor (all: bytes)
      ensures unread == all
    {
      unread := all;
    }

    /** `read_exact` into a buffer of n bytes. */
    method ReadExact(n: nat) returns (r: Result<bytes, ReadError>)
      modifies this
      ensures n <= |old(unread)| ==> r == Ok(old(unread)[..n]) && unread == old(unread)[n..]
      ensures n > |old(unread)| ==> r == Err(UnexpectedEnd)
    {
      if n > |unread| {
        unread := [];
        return Err(UnexpectedEnd);
      }
      r := Ok(unread[..n]);
      unread := unread[n..];
    }

    /** `read_u32_be`. */
    method ReadU32Be() returns (r: Result<nat, ReadError>)
      modifies this
      ensures 4 <= |old(unread)| ==> r == Ok(FromBigEndian(old(unread)[..4])) && unread == old(unread)[4..]
      ensures |old(unread)| < 4 ==> r == Err(UnexpectedEnd)
    {
      hide FromBigEndian;
      var buf := ReadExact(4);
      if buf.Err? {
        return Err(buf.error);
      }
      return Ok(FromBigEndian(buf.value));
    }

    /** `read_blob`. */
    method ReadBlob() returns (r: Result<bytes, ReadError>)
      modifies this
      ensures match Blob(old(unread))
              case Err(e) => r == Err(e)
              case Ok((blob, rest)) => r == Ok(blob) && unread == rest
    {
      hide FromBigEndian;
      ghost var s := unread;
      var n := ReadU32Be();
      if n.Err? {
        return Err(n.error);
      }
      if n.value > MAX_BLOB {
        return Err(BlobTooLarge);
      }
      var v: bytes := [];
      if n.value > 0 {
        var body := ReadExact(n.value);
        if body.Err? {
          return Err(body.error);
        }
        v := body.value;
        assert s[4..][..n.value] == s[4..4 + n.value];
        assert s[4..][n.value..] == s[4 + n.value..];
      }
      return Ok(v);
    }

    /** The reads of `main`, in its order. */
    method ReadThree() returns (r: Result<(bytes, bytes, bytes), ReadError>)
      modifies this
      ensures match ThreeBlobs(old(unread))
              case Err(e) => r == Err(e)
              case Ok((a, b, c, rest)) => r == Ok((a, b, c)) && unread == rest
    {
      hide Blob;
      var public := ReadBlob();
      if public.Err? {
        return Err(public.error);
      }
      var secret := ReadBlob();
      if secret.Err? {
        return Err(secret.error);
      }
      var extra := ReadBlob();
      if extra.Err? {
        return Err(extra.error);
      }
      return Ok((public.value, secret.value, extra.value));
    }
  }

  lemma BlobOfEncoded(b: bytes, rest: bytes)
    requires |b| < 0x1_0000_0000
    ensures Blob(EncodeBlob(b) + rest) == if |b| <= MAX_BLOB then Ok((b, rest)) else Err(BlobTooLarge)
  {
    hide BigEndian, FromBigEndian;
    var s := EncodeBlob(b) + rest;
    LengthRoundTrip(|b|);
    assert s[..4] == BigEndian(|b|, 4);
    assert s[4..4 + |b|] == b && s[4 + |b|..] == rest;
  }

  lemma BlobIsShort(s: bytes)
    requires Blob(s).Ok?
    ensures |Blob(s).value.0| <= MAX_BLOB
  {
    hide FromBigEndian;
  }

  /** The worker gets back exactly the three blobs, and nothing is left in the pipe, just when each is at most 16 MiB. */
  lemma PipeRoundTrip(a: bytes, b: bytes, c: bytes)
    ensures ThreeBlobs(Payload(a, b, c)) == Ok((a, b, c, [])) <==>
            |a| <= 16777216 && |b| <= 16777216 && |c| <= 16777216
  {
    hide Blob, EncodeBlob;
    var s := Payload(a, b, c);
    if |a| <= MAX_BLOB && |b| <= MAX_BLOB && |c| <= MAX_BLOB {
      assert s == EncodeBlob(a) + (EncodeBlob(b) + EncodeBlob(c));
      BlobOfEncoded(a, EncodeBlob(b) + EncodeBlob(c));
      BlobOfEncoded(b, EncodeBlob(c));
      assert EncodeBlob(c) + [] == EncodeBlob(c);
      BlobOfEncoded(c, []);
    } else if ThreeBlobs(s) == Ok((a, b, c, [])) {
      BlobIsShort(s);
      var s1 := Blob(s).value.1;
      BlobIsShort(s1);
      BlobIsShort(Blob(s1).value.1);
    }
  }

  /** The first blob over the limit is refused; nothing is cut or shifted. */
  lemma OversizedIsRefused(a: bytes, b: bytes, c: bytes)
    requires |a| < 0x1_0000_0000 && |b| < 0x1_0000_0000 && |c| < 0x1_0000_0000
    requires |a| > 16777216 || |b| > 16777216 || |c| > 16777216
    ensures ThreeBlobs(Payload(a, b, c)) == Err(BlobTooLarge)
  {
    hide Blob, EncodeBlob;
    assert Payload(a, b, c) == EncodeBlob(a) + (EncodeBlob(b) + EncodeBlob(c));
    BlobOfEncoded(a, EncodeBlob(b) + EncodeBlob(c));
    BlobOfEncoded(b, EncodeBlob(c));
    assert EncodeBlob(c) + [] == EncodeBlob(c);
    BlobOfEncoded(c, []);
  }
}
