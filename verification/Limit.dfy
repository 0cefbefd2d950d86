/**
 The bounded reader between the decompressor and the tar loop.  It hands on the decompressed bytes
 unchanged, never one beyond the limit, and fails rather than report a clean end too early.
 */
module Limit {
  import opened Results
  import opened Bytes

  datatype IoError = IoError

  type Io<+T> = Result<T, IoError>

  function Min(a: nat, b: nat): nat {
    if a <= b then a else b
  }

  /** The decompressor: some bytes, then a clean end, or an error if the compressed data is damaged.
      A read may be short. */
  class Decoder {
    const data: seq<Byte>
    const sound: bool
    var at: nat

    constructor (data: seq<Byte>, sound: bool)
      ensures this.data == data && this.sound == sound && at == 0
    {
      this.data, this.sound, at := data, sound, 0;
    }

    method Read(room: nat) returns (r: Io<seq<Byte>>)
      requires at <= |data|
      modifies this
      ensures at <= |data|
      ensures r.Ok? ==> old(at) <= at && r.value == data[old(at)..at] && |r.value| <= room
      ensures r.Ok? && 0 < room && r.value == [] ==> at == |data| && sound
      ensures r.Err? ==> at == old(at) == |data| && !sound && 0 < room
    {
      if room == 0 {
        return Ok([]);
      }
      if at == |data| {
        return if sound then Ok([]) else Err(IoError);
      }
      var most := Min(room, |data| - at);
      var k: nat :| 1 <= k <= most;
      r := Ok(data[at..at + k]);
      at := at + k;
    }
  }

  class DecompressedLimit {
    const inner: Decoder
    var remaining: nat
    ghost const limit: nat
    ghost var delivered: nat

    ghost predicate Valid()
      reads this, inner
    {
      && delivered + remaining == limit
      && delivered <= inner.at <= |inner.data|
      && (inner.at == delivered || Overrun())
    }

    /** A byte beyond the limit has been seen. */
    ghost predicate Overrun()
      reads this, inner
    {
      remaining == 0 && delivered < inner.at
    }

    /** How many bytes can ever be delivered. */
    ghost function Reach(): nat {
      Min(|inner.data|, limit)
    }

    /** The whole stream can be delivered and ends cleanly. */
    ghost predicate Whole() {
      inner.sound && |inner.data| <= limit
    }

    constructor (inner: Decoder, limit: nat)
      requires inner.at == 0
      ensures Valid() && !Overrun() && this.inner == inner && this.limit == limit && delivered == 0
    {
      this.inner, this.remaining, this.limit, delivered := inner, limit, limit, 0;
    }

    /** One read: the next bytes of the inner stream, a clean end only at its end, an error otherwise.
        The last clause is about reading on after the error. */
    method Read(room: nat) returns (r: Io<seq<Byte>>)
      requires Valid()
      modifies this, inner
      ensures Valid() && old(delivered) <= delivered <= Reach()
      ensures r.Ok? ==> r.value == inner.data[old(delivered)..delivered] && |r.value| <= room
      ensures r.Ok? && !old(Overrun()) ==> !Overrun()
      ensures r.Ok? && 0 < room && r.value == [] && !old(Overrun()) ==> Whole() && delivered == |inner.data|
      ensures r.Err? ==> delivered == old(delivered) == Reach() && !Whole() && 0 < room
      ensures r.Err? && inner.sound && !old(Overrun()) ==> inner.at == limit + 1
      ensures old(Overrun()) && inner.sound && old(inner.at) == |inner.data| ==> r == Ok([])
      ensures old(Overrun()) && inner.sound && old(inner.at) < |inner.data| && 0 < room ==> r.Err?
    {
      if room == 0 {
        return Ok([]);
      }
      if remaining == 0 {
        var excess := inner.Read(1);
        if excess.Err? {
          return excess;
        }
        return if excess.value == [] then Ok([]) else Err(IoError);
      }
      var allowed := Min(remaining, room);
      r := inner.Read(allowed);
      if r.Ok? {
        remaining := remaining - |r.value|;
        delivered := delivered + |r.value|;
      }
    }

    /** Fill a buffer completely or fail; it succeeds exactly when that many bytes can be delivered. */
    method ReadExact(count: nat) returns (r: Io<seq<Byte>>)
      requires Valid() && !Overrun()
      modifies this, inner
      ensures Valid()
      ensures r.Ok? <==> old(delivered) + count <= Reach()
      ensures r.Ok? ==> !Overrun() && delivered == old(delivered) + count
                        && r.value == inner.data[old(delivered)..delivered]
    {
      var filled := [];
      while |filled| < count
        invariant Valid() && !Overrun() && |filled| <= count
        invariant delivered == old(delivered) + |filled| <= Reach()
        invariant filled == inner.data[old(delivered)..delivered]
      {
        var part := Read(count - |filled|);
        if part.Err? {
          return part;
        }
        if part.value == [] {
          return Err(IoError);
        }
        filled := filled + part.value;
      }
      r := Ok(filled);
    }

    /**
     Any sequence of reads with any buffers, stopping at the first error or clean end: what arrived is
     a prefix of the stream of at most the limit; a clean end means it is the whole stream; an error
     means that the stream is damaged or longer than the limit and everything up to there arrived.
     */
    method Drain(rooms: seq<nat>) returns (bytes: seq<Byte>, ended: bool, failed: bool)
      requires Valid() && !Overrun() && delivered == 0
      modifies this, inner
      ensures |bytes| <= Reach() && bytes == inner.data[..|bytes|]
      ensures ended ==> !failed && Whole() && bytes == inner.data
      ensures failed ==> !Whole() && |bytes| == Reach()
      ensures Whole() ==> !failed
      ensures !ended && !failed ==> Valid() && !Overrun() && delivered == |bytes|
    {
      bytes, ended, failed := [], false, false;
      for i := 0 to |rooms|
        invariant Valid() && !Overrun() && delivered == |bytes| <= Reach()
        invariant bytes == inner.data[..|bytes|] && !ended && !failed
      {
        var r := Read(rooms[i]);
        if r.Err? {
          failed := true;
          return;
        }
        if r.value == [] && rooms[i] > 0 {
          ended := true;
          return;
        }
        bytes := bytes + r.value;
      }
    }
  }

  /**
   The limit is not sticky.  For any sound stream longer than the limit and buffers of any size, the
   reads deliver exactly the limit and then fail; but the failing read has consumed one byte, and the
   next one reports a clean end exactly if that byte was the last.  Every reader of it therefore has
   to stop at the first error.
   */
  method ReadPastAnError(data: seq<Byte>, limit: nat, room: nat)
    returns (bytes: seq<Byte>, first: Io<seq<Byte>>, second: Io<seq<Byte>>)
    requires limit < |data| && 0 < room
    ensures bytes == data[..limit] && first.Err?
    ensures |data| == limit + 1 ==> second == Ok([])
    ensures |data| > limit + 1 ==> second.Err?
  {
    var inner := new Decoder(data, true);
    var reader := new DecompressedLimit(inner, limit);
    bytes := [];
    first := reader.Read(room);
    while first.Ok?
      invariant reader.Valid() && reader.delivered <= limit
      invariant first.Ok? ==> !reader.Overrun() && bytes + first.value == data[..reader.delivered] && first.value != []
      invariant first.Err? ==> bytes == data[..limit] && inner.at == limit + 1 && reader.Overrun()
      decreases first.Ok?, limit - reader.delivered
    {
      bytes := bytes + first.value;
      first := reader.Read(room);
    }
    second := reader.Read(room);
  }
}
