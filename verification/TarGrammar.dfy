/**
 The block structure of a tar stream, for any rules about what a header asks for and what its data
 does: records of a header block, data and zero padding, then an all-zero block and only zeros.
 */
module TarGrammar {
  import opened Results
  import opened Bytes
  import opened TarHeader

  datatype Malformed = Malformed

  type Archived<+T> = Result<T, Malformed>

  /** `demand` is how many data bytes a header announces, `absorb` what the complete record does,
      `pending` whether metadata is waiting for a member. */
  datatype Rules<!S> = Rules(
    demand: (S, Block) -> Archived<nat>,
    absorb: (S, Block, seq<Byte>) -> Archived<S>,
    pending: S -> bool)

  function Padding(n: nat): nat {
    (512 - n % 512) % 512
  }

  /** One record at the front of the stream: the state after it and how much it occupies. */
  function Record<S>(r: Rules<S>, st: S, stream: seq<Byte>): (record: Archived<(S, nat)>)
    requires |stream| >= 512
    ensures record.Ok? ==> 512 <= record.value.1 <= |stream| && record.value.1 % 512 == 0
  {
    var n :- r.demand(st, stream[..512]);
    if !Complete(stream, n) then Err(Malformed)
    else
      var next :- r.absorb(st, stream[..512], stream[512..512 + n]);
      Ok((next, 512 + n + Padding(n)))
  }

  lemma PaddingFills(n: nat)
    ensures (n + Padding(n)) % 512 == 0 && Padding(n) < 512
  {
  }

  /** The data and the zero padding of the first record are all there. */
  predicate Complete(stream: seq<Byte>, size: nat) {
    && |stream| >= 512 + size + Padding(size)
    && AllZero(stream[512 + size..512 + size + Padding(size)])
  }

  lemma RecordCases<S>(r: Rules<S>, st: S, stream: seq<Byte>)
    requires |stream| >= 512
    ensures var n := r.demand(st, stream[..512]);
            var record := Record(r, st, stream);
            && (n.Err? ==> record.Err?)
            && (n.Ok? && !Complete(stream, n.value) ==> record.Err?)
            && (n.Ok? && Complete(stream, n.value) ==>
                  var next := r.absorb(st, stream[..512], stream[512..512 + n.value]);
                  if next.Err? then record.Err? else record == Ok((next.value, 512 + n.value + Padding(n.value))))
  {
  }

  /** The whole stream, by recursion on its records. */
  function Walk<S>(r: Rules<S>, st: S, stream: seq<Byte>): Archived<S>
    decreases |stream|
  {
    if |stream| < 512 then Err(Malformed)
    else if AllZero(stream[..512]) then
      if r.pending(st) || !AllZero(stream) then Err(Malformed) else Ok(st)
    else
      var record :- Record(r, st, stream);
      Walk(r, record.0, stream[record.1..])
  }

  lemma WalkCases<S>(r: Rules<S>, st: S, stream: seq<Byte>)
    ensures |stream| < 512 ==> Walk(r, st, stream).Err?
    ensures |stream| >= 512 && AllZero(stream[..512]) ==>
              Walk(r, st, stream) == if r.pending(st) || !AllZero(stream) then Err(Malformed) else Ok(st)
    ensures |stream| >= 512 && !AllZero(stream[..512]) ==>
              var record := Record(r, st, stream);
              && (record.Err? ==> Walk(r, st, stream).Err?)
              && (record.Ok? ==> Walk(r, st, stream) == Walk(r, record.value.0, stream[record.value.1..]))
  {
  }

  // ---- The grammar ----

  datatype Entry = Entry(block: Block, data: seq<Byte>)

  function Encoded(e: Entry): (s: seq<Byte>)
    ensures |s| == 512 + |e.data| + Padding(|e.data|)
  {
    e.block + (e.data + Zeros(Padding(|e.data|)))
  }

  function Layout(entries: seq<Entry>): seq<Byte> {
    if entries == [] then [] else Encoded(entries[0]) + Layout(entries[1..])
  }

  lemma {:induction false} LayoutSnoc(entries: seq<Entry>, last: Entry)
    ensures Layout(entries + [last]) == Layout(entries) + Encoded(last)
  {
    if entries == [] {
      assert entries + [last] == [last] && [last][1..] == [];
    } else {
      assert (entries + [last])[1..] == entries[1..] + [last];
      LayoutSnoc(entries[1..], last);
    }
  }

  /** One entry, independently of the bytes around it. */
  function EntryStep<S>(r: Rules<S>, st: S, e: Entry): Archived<S> {
    var n :- r.demand(st, e.block);
    if n != |e.data| then Err(Malformed) else r.absorb(st, e.block, e.data)
  }

  function Fold<S>(r: Rules<S>, st: S, entries: seq<Entry>): Archived<S>
    decreases |entries|
  {
    if entries == [] then Ok(st)
    else
      var next :- EntryStep(r, st, entries[0]);
      Fold(r, next, entries[1..])
  }

  predicate Trailer(zeros: seq<Byte>) {
    |zeros| >= 512 && AllZero(zeros)
  }

  /** The rules never take the end marker for a header. */
  ghost predicate RejectsZeros<S(!new)>(r: Rules<S>) {
    forall st: S, block: Block :: r.demand(st, block).Ok? ==> !AllZero(block)
  }

  /** The record a walk takes at the front of a stream. */
  function EntryAt<S>(r: Rules<S>, st: S, stream: seq<Byte>): Entry
    requires |stream| >= 512 && Record(r, st, stream).Ok?
  {
    var n := r.demand(st, stream[..512]).value;
    Entry(stream[..512], stream[512..512 + n])
  }

  lemma RecordIsEntry<S>(r: Rules<S>, st: S, e: Entry, rest: seq<Byte>)
    requires EntryStep(r, st, e).Ok?
    ensures var stream := Encoded(e) + rest;
            && stream[..512] == e.block
            && Record(r, st, stream) == Ok((EntryStep(r, st, e).value, |Encoded(e)|))
            && EntryAt(r, st, stream) == e
            && stream[|Encoded(e)|..] == rest
  {
    var stream := Encoded(e) + rest;
    var n := |e.data|;
    assert stream[..512] == e.block;
    assert stream[512..512 + n] == e.data;
    assert stream[512 + n..512 + n + Padding(n)] == Zeros(Padding(n));
  }

  /** Whatever folds is walked, however long the zero trailer. */
  lemma {:induction false} LayoutWalks<S(!new)>(r: Rules<S>, st: S, entries: seq<Entry>, zeros: seq<Byte>)
    requires RejectsZeros(r) && Trailer(zeros)
    requires Fold(r, st, entries).Ok? && !r.pending(Fold(r, st, entries).value)
    ensures Walk(r, st, Layout(entries) + zeros) == Fold(r, st, entries)
    decreases |entries|
  {
    if entries == [] {
      assert Layout(entries) + zeros == zeros;
    } else {
      var rest := Layout(entries[1..]) + zeros;
      assert Layout(entries) + zeros == Encoded(entries[0]) + rest;
      RecordIsEntry(r, st, entries[0], rest);
      assert r.demand(st, entries[0].block).Ok?;
      LayoutWalks(r, EntryStep(r, st, entries[0]).value, entries[1..], zeros);
    }
  }

  lemma EntryOfRecord<S>(r: Rules<S>, st: S, stream: seq<Byte>)
    requires |stream| >= 512 && Record(r, st, stream).Ok?
    ensures EntryStep(r, st, EntryAt(r, st, stream)) == Ok(Record(r, st, stream).value.0)
    ensures stream == Encoded(EntryAt(r, st, stream)) + stream[Record(r, st, stream).value.1..]
  {
    var n := r.demand(st, stream[..512]).value;
    var end := 512 + n + Padding(n);
    assert stream[512 + n..end] == Zeros(Padding(n));
    assert stream == stream[..512] + (stream[512..512 + n] + stream[512 + n..end]) + stream[end..];
  }

  function Entries<S>(r: Rules<S>, st: S, stream: seq<Byte>): seq<Entry>
    requires Walk(r, st, stream).Ok?
    decreases |stream|
  {
    if AllZero(stream[..512]) then []
    else
      var record := Record(r, st, stream).value;
      [EntryAt(r, st, stream)] + Entries(r, record.0, stream[record.1..])
  }

  function TrailerOf<S>(r: Rules<S>, st: S, stream: seq<Byte>): seq<Byte>
    requires Walk(r, st, stream).Ok?
    decreases |stream|
  {
    if AllZero(stream[..512]) then stream
    else
      var record := Record(r, st, stream).value;
      TrailerOf(r, record.0, stream[record.1..])
  }

  /** Success means the whole stream is exactly records and a zero trailer. */
  lemma {:induction false} WalkIsLayout<S>(r: Rules<S>, st: S, stream: seq<Byte>)
    requires Walk(r, st, stream).Ok?
    ensures stream == Layout(Entries(r, st, stream)) + TrailerOf(r, st, stream)
    ensures Trailer(TrailerOf(r, st, stream))
    ensures Fold(r, st, Entries(r, st, stream)) == Walk(r, st, stream)
    ensures !r.pending(Walk(r, st, stream).value)
    decreases |stream|
  {
    if AllZero(stream[..512]) {
      assert Layout([]) + stream == stream;
    } else {
      var record := Record(r, st, stream).value;
      var rest := stream[record.1..];
      EntryOfRecord(r, st, stream);
      WalkIsLayout(r, record.0, rest);
      var e := EntryAt(r, st, stream);
      var entries := [e] + Entries(r, record.0, rest);
      assert entries[1..] == Entries(r, record.0, rest);
      assert Layout(entries) + TrailerOf(r, record.0, rest)
          == Encoded(e) + (Layout(Entries(r, record.0, rest)) + TrailerOf(r, record.0, rest));
    }
  }

  /** A stream is taken apart into the records it was laid out from. */
  lemma EntriesStep<S(!new)>(r: Rules<S>, st: S, e: Entry, rest: seq<Byte>)
    requires RejectsZeros(r) && EntryStep(r, st, e).Ok? && Walk(r, EntryStep(r, st, e).value, rest).Ok?
    ensures Walk(r, st, Encoded(e) + rest).Ok?
    ensures Entries(r, st, Encoded(e) + rest) == [e] + Entries(r, EntryStep(r, st, e).value, rest)
  {
    RecordIsEntry(r, st, e, rest);
    assert r.demand(st, e.block).Ok?;
  }

  lemma {:induction false} EntriesOfLayout<S(!new)>(r: Rules<S>, st: S, entries: seq<Entry>, zeros: seq<Byte>)
    requires RejectsZeros(r) && Trailer(zeros)
    requires Fold(r, st, entries).Ok? && !r.pending(Fold(r, st, entries).value)
    ensures Walk(r, st, Layout(entries) + zeros).Ok?
    ensures Entries(r, st, Layout(entries) + zeros) == entries
    decreases |entries|
  {
    if entries == [] {
      assert Layout(entries) + zeros == zeros;
    } else {
      var e, next := entries[0], EntryStep(r, st, entries[0]).value;
      var rest := Layout(entries[1..]) + zeros;
      EntriesOfLayout(r, next, entries[1..], zeros);
      EntriesStep(r, st, e, rest);
      assert Layout(entries) + zeros == Encoded(e) + rest;
      assert entries == [e] + entries[1..];
    }
  }

  /** The walk accepts exactly the grammar: entries folded without fault, then zeros. */
  lemma WalkAcceptsExactly<S(!new)>(r: Rules<S>, st: S, stream: seq<Byte>, end: S)
    requires RejectsZeros(r)
    ensures Walk(r, st, stream) == Ok(end)
       <==> exists entries, zeros ::
              && stream == Layout(entries) + zeros && Trailer(zeros)
              && Fold(r, st, entries) == Ok(end) && !r.pending(end)
  {
    if Walk(r, st, stream) == Ok(end) {
      WalkIsLayout(r, st, stream);
    }
    if entries, zeros :|
      && stream == Layout(entries) + zeros && Trailer(zeros)
      && Fold(r, st, entries) == Ok(end) && !r.pending(end)
    {
      LayoutWalks(r, st, entries, zeros);
    }
  }

  /** Folding a concatenation folds the parts in turn. */
  lemma {:induction false} FoldConcat<S>(r: Rules<S>, st: S, a: seq<Entry>, b: seq<Entry>)
    requires Fold(r, st, a).Ok?
    ensures Fold(r, st, a + b) == Fold(r, Fold(r, st, a).value, b)
    decreases |a|
  {
    if a == [] {
      assert a + b == b;
    } else {
      assert (a + b)[1..] == a[1..] + b;
      FoldConcat(r, EntryStep(r, st, a[0]).value, a[1..], b);
    }
  }
}
