/**
 PAX extended headers: records `<length> <key>=<value>\n` whose decimal length counts itself, the
 parser that keeps the `path` and `size` overrides, and the writer's search for the length.
 */
module Pax {
  import opened Results
  import opened Bytes
  import opened TarGrammar

  /** `None` leaves a field alone, `Some(None)` cancels it, `Some(Some(x))` replaces it. */
  datatype Overrides = Overrides(path: Option<Option<seq<Byte>>>, size: Option<Option<nat>>)

  const NONE := Overrides(None, None)
  const PATH_KEY: seq<Byte> := [112, 97, 116, 104]
  const SIZE_KEY: seq<Byte> := [115, 105, 122, 101]

  /** Later settings win field by field. */
  function Combine(first: Overrides, later: Overrides): Overrides {
    Overrides(if later.path.Some? then later.path else first.path,
              if later.size.Some? then later.size else first.size)
  }

  datatype Field = Field(length: nat, key: seq<Byte>, value: seq<Byte>)

  function FirstField(data: seq<Byte>): (r: Result<Field, Malformed>)
    ensures r.Ok? ==> 0 < r.value.length <= |data|
  {
    var space := IndexOf(data, SPACE);
    if space.None? then Err(Malformed)
    else
      var length := ParseDecimal(data[..space.value]);
      if length.None? || length.value > |data| then Err(Malformed)
      else
        var end := length.value;
        if end <= space.value + 1 || data[end - 1] != NEWLINE then Err(Malformed)
        else
          var field := data[space.value + 1..end - 1];
          var equals := IndexOf(field, EQUALS);
          if equals.None? then Err(Malformed)
          else Ok(Field(end, field[..equals.value], field[equals.value + 1..]))
  }

  function Meaning(key: seq<Byte>, value: seq<Byte>): Result<Overrides, Malformed> {
    if key == PATH_KEY then Ok(Overrides(Some(if value == [] then None else Some(value)), None))
    else if key == SIZE_KEY then
      if value == [] then Ok(Overrides(None, Some(None)))
      else
        var size := ParseDecimal(value);
        if size.None? then Err(Malformed) else Ok(Overrides(None, Some(size)))
    else Ok(NONE)
  }

  /** The overrides of a whole extended header, by recursion on its records. */
  function Parse(data: seq<Byte>): Result<Overrides, Malformed>
    decreases |data|
  {
    if data == [] then Ok(NONE)
    else
      var field :- FirstField(data);
      var first :- Meaning(field.key, field.value);
      var rest :- Parse(data[field.length..]);
      Ok(Combine(first, rest))
  }

  /** What has been read so far, followed by what the rest means. */
  function Following(first: Overrides, rest: Result<Overrides, Malformed>): Result<Overrides, Malformed> {
    if rest.Err? then rest else Ok(Combine(first, rest.value))
  }

  /** One turn of the loop, at a nonempty rest. */
  lemma ParseStep(first: Overrides, rest: seq<Byte>)
    requires rest != []
    ensures FirstField(rest).Err? ==> Parse(rest) == Err(Malformed)
    ensures FirstField(rest).Ok? ==>
              var field := FirstField(rest).value;
              var meaning := Meaning(field.key, field.value);
              && (meaning.Err? ==> Parse(rest) == Err(Malformed))
              && (meaning.Ok? ==>
                    Following(first, Parse(rest))
                    == Following(Combine(first, meaning.value), Parse(rest[field.length..])))
  {
  }

  lemma RestOfRest(data: seq<Byte>, cursor: nat, n: nat)
    requires cursor <= |data| && n <= |data[cursor..]|
    ensures data[cursor..][n..] == data[cursor + n..]
  {
    SliceOfSlice(data, cursor, |data|, n, |data| - cursor);
    assert data[cursor..|data|] == data[cursor..];
  }

  /** One turn of the loop: the next record is taken, or the header is refused. */
  method TakeSetting(data: seq<Byte>, cursor: nat, overrides: Overrides)
    returns (r: Result<(Overrides, nat), Malformed>)
    requires cursor < |data|
    ensures var whole := Following(overrides, Parse(data[cursor..]));
            match r
            case Err(_) => whole == Err(Malformed)
            case Ok((next, end)) => cursor < end <= |data| && whole == Following(next, Parse(data[end..]))
  {
    var here := data[cursor..];
    ParseStep(overrides, here);
    var field := FirstField(here);
    if field.Err? {
      return Err(Malformed);
    }
    var n := field.value.length;
    var meaning := Meaning(field.value.key, field.value.value);
    if meaning.Err? {
      return Err(Malformed);
    }
    RestOfRest(data, cursor, n);
    r := Ok((Combine(overrides, meaning.value), cursor + n));
  }

  /** The cursor loop computes exactly the recursive meaning. */
  method PaxOverrides(data: seq<Byte>) returns (r: Result<Overrides, Malformed>)
    ensures r == Parse(data)
  {
    var cursor := 0;
    var overrides := NONE;
    ghost var whole := Parse(data);
    assert data[0..] == data;
    while cursor < |data|
      invariant cursor <= |data|
      invariant whole == Following(overrides, Parse(data[cursor..]))
    {
      var next := TakeSetting(data, cursor, overrides);
      if next.Err? {
        return Err(Malformed);
      }
      overrides, cursor := next.value.0, next.value.1;
    }
    assert data[cursor..] == [];
    r := Ok(overrides);
  }

  // ---- Composition ----

  lemma FirstFieldOfPrefix(d1: seq<Byte>, d2: seq<Byte>)
    requires FirstField(d1).Ok?
    ensures FirstField(d1 + d2) == FirstField(d1)
  {
    var space := IndexOf(d1, SPACE).value;
    IndexOfFirst(d1, SPACE);
    assert d1 == d1[..space] + [SPACE] + d1[space + 1..];
    assert d1 + d2 == d1[..space] + [SPACE] + (d1[space + 1..] + d2);
    IndexOfPrefix(d1[..space], SPACE, d1[space + 1..] + d2);
    SliceOfPrefix(d1, d2, 0, space);
    var end := FirstField(d1).value.length;
    SliceOfPrefix(d1, d2, space + 1, end - 1);
  }

  /** Parsing a concatenation is parsing the parts and combining them, later over earlier. */
  lemma {:induction false} ParseComposes(d1: seq<Byte>, d2: seq<Byte>)
    requires Parse(d1).Ok?
    ensures Parse(d1 + d2) == var second := Parse(d2);
                              if second.Err? then second else Ok(Combine(Parse(d1).value, second.value))
    decreases |d1|
  {
    if d1 == [] {
      assert d1 + d2 == d2;
    } else {
      FirstFieldOfPrefix(d1, d2);
      var n := FirstField(d1).value.length;
      assert (d1 + d2)[n..] == d1[n..] + d2;
      ParseComposes(d1[n..], d2);
    }
  }

  /** The global overrides in force, with the source's in-place update. */
  class OwnedPaxOverrides {
    var path: Option<seq<Byte>>
    var size: Option<nat>

    constructor ()
      ensures path == None && size == None
    {
      path, size := None, None;
    }

    function State(): (Option<seq<Byte>>, Option<nat>)
      reads this
    {
      (path, size)
    }

    method Update(overrides: Overrides)
      modifies this
      ensures State() == Updated(old(State()), overrides)
    {
      if overrides.path.Some? {
        path := overrides.path.value;
      }
      if overrides.size.Some? {
        size := overrides.size.value;
      }
    }
  }

  function Updated(state: (Option<seq<Byte>>, Option<nat>), o: Overrides): (Option<seq<Byte>>, Option<nat>) {
    (if o.path.Some? then o.path.value else state.0, if o.size.Some? then o.size.value else state.1)
  }

  /** Successive global headers act as one header holding their concatenation. */
  lemma GlobalHeadersConcatenate(state: (Option<seq<Byte>>, Option<nat>), d1: seq<Byte>, d2: seq<Byte>)
    requires Parse(d1).Ok? && Parse(d2).Ok?
    ensures Parse(d1 + d2).Ok?
    ensures Updated(Updated(state, Parse(d1).value), Parse(d2).value) == Updated(state, Parse(d1 + d2).value)
  {
    ParseComposes(d1, d2);
  }

  // ---- Writing ----

  function Body(key: seq<Byte>, value: seq<Byte>): seq<Byte> {
    key + [EQUALS] + value + [NEWLINE]
  }

  function WithLength(length: nat, body: seq<Byte>): seq<Byte> {
    Decimal(length) + [SPACE] + body
  }

  /** A record states its own total length. */
  predicate SelfLength(length: nat, body: seq<Byte>) {
    |WithLength(length, body)| == length
  }

  lemma {:induction false} DecimalMonotone(a: nat, b: nat)
    requires a <= b
    ensures |Decimal(a)| <= |Decimal(b)|
  {
    if a >= 10 {
      DecimalMonotone(a / 10, b / 10);
    }
  }

  /** The writer's loop: grow the length until it counts itself.  It always gets there. */
  method EncodeRecord(key: seq<Byte>, value: seq<Byte>) returns (record: seq<Byte>)
    ensures exists length :: SelfLength(length, Body(key, value)) && record == WithLength(length, Body(key, value))
    ensures record == EncodedRecord(key, value)
  {
    var body := Body(key, value);
    var length := |body| + 2;
    DecimalLength(length);
    record := WithLength(length, body);
    while |record| != length
      invariant record == WithLength(length, body)
      invariant length <= |record| <= 2 * |body| + 4
      invariant forall l :: SelfLength(l, body) && |body| + 2 <= l ==> length <= l
      decreases 2 * |body| + 4 - length
    {
      ghost var before := length;
      length := |record|;
      record := WithLength(length, body);
      LengthGrows(before, length, body);
      forall l | SelfLength(l, body) && |body| + 2 <= l ensures length <= l {
        DecimalMonotone(before, l);
      }
    }
    LeastIsRecord(length, body);
  }

  lemma LengthGrows(a: nat, b: nat, body: seq<Byte>)
    requires a <= b <= 2 * |body| + 4 && b == |WithLength(a, body)|
    ensures b <= |WithLength(b, body)| <= 2 * |body| + 4
  {
    DecimalMonotone(a, b);
    DecimalLength(b);
  }

  /** The self-including length exists: iterating from the shortest candidate reaches it. */
  function LengthFrom(length: nat, body: seq<Byte>): (l: nat)
    requires length <= |WithLength(length, body)| <= 2 * |body| + 4
    ensures SelfLength(l, body) && length <= l
    decreases 2 * |body| + 4 - length
  {
    var next := |WithLength(length, body)|;
    if next == length then length
    else
      LengthGrows(length, next, body);
      LengthFrom(next, body)
  }

  function EncodedRecord(key: seq<Byte>, value: seq<Byte>): seq<Byte> {
    var body := Body(key, value);
    DecimalLength(|body| + 2);
    WithLength(LengthFrom(|body| + 2, body), body)
  }

  lemma LeastIsRecord(length: nat, body: seq<Byte>)
    requires SelfLength(length, body) && |body| + 2 <= length
    requires forall l :: SelfLength(l, body) && |body| + 2 <= l ==> length <= l
    requires |body| + 2 <= |WithLength(|body| + 2, body)| <= 2 * |body| + 4
    ensures length == LengthFrom(|body| + 2, body)
  {
    LengthFromIsLeast(|body| + 2, length, body);
  }

  lemma {:induction false} LengthFromIsLeast(start: nat, l: nat, body: seq<Byte>)
    requires start <= |WithLength(start, body)| <= 2 * |body| + 4
    requires SelfLength(l, body) && start <= l
    ensures LengthFrom(start, body) <= l
    decreases 2 * |body| + 4 - start
  {
    var next := |WithLength(start, body)|;
    if next != start {
      LengthGrows(start, next, body);
      DecimalMonotone(start, l);
      LengthFromIsLeast(next, l, body);
    }
  }

  // ---- Round trip ----

  /** Keys a writer may use: nonempty is not required, but a key ends at its first `=`. */
  predicate ValidKey(key: seq<Byte>) {
    EQUALS !in key
  }

  lemma FieldParses(digits: seq<Byte>, n: nat, key: seq<Byte>, value: seq<Byte>, rest: seq<Byte>)
    requires ValidKey(key) && SPACE !in digits
    requires ParseDecimal(digits) == Some(n)
    requires n == |digits| + 1 + |Body(key, value)|
    ensures FirstField(digits + [SPACE] + (Body(key, value) + rest)) == Ok(Field(n, key, value))
  {
    var data := digits + [SPACE] + (Body(key, value) + rest);
    var field := key + [EQUALS] + value;
    IndexOfPrefix(digits, SPACE, Body(key, value) + rest);
    assert data[..|digits|] == digits;
    assert data == digits + [SPACE] + (field + [NEWLINE] + rest);
    assert data[|digits| + 1..n - 1] == field;
    assert data[n - 1] == NEWLINE;
    IndexOfPrefix(key, EQUALS, value);
    assert field[..|key|] == key && field[|key| + 1..] == value;
  }

  lemma RecordParses(key: seq<Byte>, value: seq<Byte>, rest: seq<Byte>)
    requires ValidKey(key) && |EncodedRecord(key, value)| < 0x1_0000_0000_0000_0000
    ensures FirstField(EncodedRecord(key, value) + rest) == Ok(Field(|EncodedRecord(key, value)|, key, value))
  {
    var n := |EncodedRecord(key, value)|;
    var digits := Decimal(n);
    DecimalValue(n);
    DigitsOnly(digits, SPACE);
    DecimalRoundTrip(n);
    SelfDescribing(key, value);
    FieldParses(digits, n, key, value, rest);
    assert EncodedRecord(key, value) + rest == digits + [SPACE] + (Body(key, value) + rest);
  }

  lemma SelfDescribing(key: seq<Byte>, value: seq<Byte>)
    ensures var n := |EncodedRecord(key, value)|; EncodedRecord(key, value) == WithLength(n, Body(key, value))
  {
  }

  type Setting = (seq<Byte>, seq<Byte>)

  function EncodeAll(settings: seq<Setting>): seq<Byte> {
    if settings == [] then [] else EncodedRecord(settings[0].0, settings[0].1) + EncodeAll(settings[1..])
  }

  /** The value of the last setting of a key, if any. */
  function Last(settings: seq<Setting>, key: seq<Byte>): Option<seq<Byte>> {
    if settings == [] then None
    else if settings[|settings| - 1].0 == key then Some(settings[|settings| - 1].1)
    else Last(settings[..|settings| - 1], key)
  }

  predicate Encodable(s: Setting) {
    && ValidKey(s.0) && |EncodedRecord(s.0, s.1)| < 0x1_0000_0000_0000_0000
    && Meaning(s.0, s.1).Ok?
  }

  predicate AllEncodable(settings: seq<Setting>) {
    forall s <- settings :: Encodable(s)
  }

  lemma {:induction false} LastConcat(a: seq<Setting>, b: seq<Setting>, key: seq<Byte>)
    ensures Last(a + b, key) == if Last(b, key).Some? then Last(b, key) else Last(a, key)
    decreases |b|
  {
    if b == [] {
      assert a + b == a;
    } else {
      var s := a + b;
      assert s[..|s| - 1] == a + b[..|b| - 1] && s[|s| - 1] == b[|b| - 1];
      LastConcat(a, b[..|b| - 1], key);
    }
  }

  /** What the last settings of the two keys ask for. */
  function LastWins(settings: seq<Setting>): Overrides {
    var path, size := Last(settings, PATH_KEY), Last(settings, SIZE_KEY);
    Overrides(
      if path.None? then None else Some(if path.value == [] then None else Some(path.value)),
      if size.None? then None else Some(if size.value == [] then None else ParseDecimal(size.value)))
  }

  /** Parsing what the writer concatenates gives the last setting of each key. */
  predicate ParsesToLast(settings: seq<Setting>) {
    Parse(EncodeAll(settings)) == Ok(LastWins(settings))
  }

  lemma FrontEncodable(settings: seq<Setting>)
    requires AllEncodable(settings) && settings != []
    ensures var front, last := settings[..|settings| - 1], settings[|settings| - 1];
            AllEncodable(front) && Encodable(last) && settings == front + [last]
  {
  }

  lemma {:induction false} LastSettingWins(settings: seq<Setting>)
    requires AllEncodable(settings)
    ensures ParsesToLast(settings)
    decreases |settings|
  {
    if settings != [] {
      var front, last := settings[..|settings| - 1], settings[|settings| - 1];
      FrontEncodable(settings);
      LastSettingWins(front);
      AppendRecord(front, last);
    }
  }

  lemma AppendRecord(front: seq<Setting>, last: Setting)
    requires Encodable(last) && ParsesToLast(front)
    ensures ParsesToLast(front + [last])
  {
    EncodeSnoc(front, last);
    OneRecord(last);
    ParseComposes(EncodeAll(front), EncodedRecord(last.0, last.1));
    LastSnoc(front, last);
  }

  lemma OneRecord(setting: Setting)
    requires Encodable(setting)
    ensures Parse(EncodedRecord(setting.0, setting.1)) == Meaning(setting.0, setting.1)
  {
    var record := EncodedRecord(setting.0, setting.1);
    RecordParses(setting.0, setting.1, []);
    assert record + [] == record && record[|record|..] == [];
    assert Parse(record[|record|..]) == Ok(NONE);
  }

  lemma LastSnoc(front: seq<Setting>, last: Setting)
    requires Meaning(last.0, last.1).Ok?
    ensures LastWins(front + [last]) == Combine(LastWins(front), Meaning(last.0, last.1).value)
  {
    var s := front + [last];
    assert s[..|s| - 1] == front && s[|s| - 1] == last;
    assert PATH_KEY[0] != SIZE_KEY[0];
  }

  lemma {:induction false} EncodeSnoc(front: seq<Setting>, last: Setting)
    ensures EncodeAll(front + [last]) == EncodeAll(front) + EncodedRecord(last.0, last.1)
  {
    if front == [] {
      assert [last][1..] == [];
      assert front + [last] == [last];
    } else {
      assert (front + [last])[1..] == front[1..] + [last];
      EncodeSnoc(front[1..], last);
    }
  }
}
