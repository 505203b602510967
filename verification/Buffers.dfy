/** The buffer-level code of cql_serialization.hpp: encoders that write in place, decoders that loop. */
module Buffers {
  import opened Prelude
  import opened Bytes
  import opened Codecs
  import opened Serialization

  /** memcpy into the buffer. */
  method Copy(output: array<byte>, pos: nat, x: Bytes) returns (next: nat)
    requires pos + |x| <= output.Length
    modifies output
    ensures next == pos + |x| && Wrote(old(output[..]), output[..], pos, x)
  {
    forall i | 0 <= i < |x| {
      output[pos + i] := x[i];
    }
    next := pos + |x|;
  }

  method EncodeByte(output: array<byte>, pos: nat, v: byte) returns (next: nat)
    requires pos + 1 <= output.Length
    modifies output
    ensures next == pos + 1 && Wrote(old(output[..]), output[..], pos, [v])
  {
    output[pos] := v;
    next := pos + 1;
  }

  method EncodeShort(output: array<byte>, pos: nat, v: int) returns (next: nat)
    requires pos + 2 <= output.Length
    modifies output
    ensures next == pos + 2 && Wrote(old(output[..]), output[..], pos, EncShort(v))
  {
    next := Copy(output, pos, EncShort(v));
  }

  method EncodeInt(output: array<byte>, pos: nat, v: int) returns (next: nat)
    requires pos + 4 <= output.Length
    modifies output
    ensures next == pos + 4 && Wrote(old(output[..]), output[..], pos, EncInt(v))
  {
    next := Copy(output, pos, EncInt(v));
  }

  method EncodeString(output: array<byte>, pos: nat, s: Bytes) returns (next: nat)
    requires pos + 2 + |s| <= output.Length
    modifies output
    ensures next == pos + 2 + |s| && Wrote(old(output[..]), output[..], pos, EncString(s))
  {
    next := EncodeShort(output, pos, |s|);
    ghost var mid := output[..];
    next := Copy(output, next, s);
    WroteBoth(old(output[..]), mid, output[..], pos, EncShort(|s|), s);
  }

  method EncodeLongString(output: array<byte>, pos: nat, s: Bytes) returns (next: nat)
    requires pos + 4 + |s| <= output.Length
    modifies output
    ensures next == pos + 4 + |s| && Wrote(old(output[..]), output[..], pos, EncLongString(s))
  {
    next := EncodeInt(output, pos, |s|);
    ghost var mid := output[..];
    next := Copy(output, next, s);
    WroteBoth(old(output[..]), mid, output[..], pos, EncInt(|s|), s);
  }

  lemma {:induction false} EncManySnoc<T>(enc: Encoder<T>, xs: seq<T>, x: T)
    ensures EncMany(enc, xs + [x]) == EncMany(enc, xs) + enc(x)
    decreases |xs|
  {
    if xs == [] {
      assert (xs + [x])[1..] == [];
    } else {
      EncManySnoc(enc, xs[1..], x);
      assert (xs + [x])[1..] == xs[1..] + [x];
    }
  }

  lemma {:induction false} EncManyGrows<T>(enc: Encoder<T>, xs: seq<T>, i: nat)
    requires i < |xs|
    ensures |EncMany(enc, xs[..i])| + |enc(xs[i])| <= |EncMany(enc, xs)|
    decreases i
  {
    if i > 0 {
      EncManyGrows(enc, xs[1..], i - 1);
      assert xs[..i][1..] == xs[1..][..i - 1];
    }
  }

  method EncodePair(output: array<byte>, pos: nat, e: Entry) returns (next: nat)
    requires pos + |EntryEncoder()(e)| <= output.Length
    modifies output
    ensures next == pos + |EntryEncoder()(e)| && Wrote(old(output[..]), output[..], pos, EntryEncoder()(e))
  {
    next := EncodeString(output, pos, e.0);
    ghost var mid := output[..];
    next := EncodeString(output, next, e.1);
    WroteBoth(old(output[..]), mid, output[..], pos, EncString(e.0), EncString(e.1));
  }

  /** The count and the first i items. */
  function EncSome<T>(enc: Encoder<T>, xs: seq<T>, i: nat): Bytes
    requires i <= |xs|
  {
    EncShort(|xs|) + EncMany(enc, xs[..i])
  }

  lemma EncSomeSteps<T>(enc: Encoder<T>, xs: seq<T>, i: nat)
    requires i < |xs|
    ensures EncSome(enc, xs, i + 1) == EncSome(enc, xs, i) + enc(xs[i])
    ensures |EncSome(enc, xs, i)| + |enc(xs[i])| <= |EncCounted(enc, xs)|
  {
    EncManySnoc(enc, xs[..i], xs[i]);
    EncManyGrows(enc, xs, i);
    assert xs[..i + 1] == xs[..i] + [xs[i]];
    assert EncShort(|xs|) + (EncMany(enc, xs[..i]) + enc(xs[i])) == EncShort(|xs|) + EncMany(enc, xs[..i]) + enc(xs[i]);
  }

  /** The map is given as the entries in the order its iterator visits them. */
  method EncodeStringMap(output: array<byte>, pos: nat, entries: seq<Entry>) returns (next: nat)
    requires pos + |EncMap(entries)| <= output.Length
    modifies output
    ensures next == pos + |EncMap(entries)| && Wrote(old(output[..]), output[..], pos, EncMap(entries))
  {
    next := EncodeShort(output, pos, |entries|);
    assert EncSome(EntryEncoder(), entries, 0) == EncShort(|entries|);
    for i := 0 to |entries|
      invariant next == pos + |EncSome(EntryEncoder(), entries, i)|
      invariant Wrote(old(output[..]), output[..], pos, EncSome(EntryEncoder(), entries, i))
    {
      EncSomeSteps(EntryEncoder(), entries, i);
      ghost var before := output[..];
      next := EncodePair(output, next, entries[i]);
      WroteBoth(old(output[..]), before, output[..], pos,
                EncSome(EntryEncoder(), entries, i), EntryEncoder()(entries[i]));
    }
    assert entries[..|entries|] == entries;
  }

  /** The bound values of a query. */
  method EncodeValues(output: array<byte>, pos: nat, values: seq<Bytes>) returns (next: nat)
    requires pos + |EncCounted(EncLongString, values)| <= output.Length
    modifies output
    ensures next == pos + |EncCounted(EncLongString, values)|
    ensures Wrote(old(output[..]), output[..], pos, EncCounted(EncLongString, values))
  {
    next := EncodeShort(output, pos, |values|);
    assert EncSome(EncLongString, values, 0) == EncShort(|values|);
    for i := 0 to |values|
      invariant next == pos + |EncSome(EncLongString, values, i)|
      invariant Wrote(old(output[..]), output[..], pos, EncSome(EncLongString, values, i))
    {
      EncSomeSteps(EncLongString, values, i);
      ghost var before := output[..];
      next := EncodeLongString(output, next, values[i]);
      WroteBoth(old(output[..]), before, output[..], pos, EncSome(EncLongString, values, i), EncLongString(values[i]));
    }
    assert values[..|values|] == values;
  }

  // ---------------------------------------------------------------------------------------------

  /** Reading n items amounts to the ones done so far and whatever reading the rest gives. */
  ghost predicate Remaining<T>(get: Decoder<T>, b: Bytes, start: nat, n: nat, done: seq<T>, pos: nat) {
    && |done| <= n
    && var rest := GetMany(get, b, pos, n - |done|);
       GetMany(get, b, start, n) ==
         if rest.None? then None else Some(Got(done + rest.value.value, rest.value.next))
  }

  lemma RemainingStart<T>(get: Decoder<T>, b: Bytes, start: nat, n: nat)
    ensures Remaining(get, b, start, n, [], start)
  {
    var r := GetMany(get, b, start, n);
    if r.Some? {
      assert [] + r.value.value == r.value.value;
    }
  }

  lemma RemainingStep<T>(get: Decoder<T>, b: Bytes, start: nat, n: nat, done: seq<T>, pos: nat, x: Got<T>)
    requires Remaining(get, b, start, n, done, pos) && |done| < n && get(b, pos) == Some(x)
    ensures Remaining(get, b, start, n, done + [x.value], x.next)
  {
    var rest := GetMany(get, b, x.next, n - |done| - 1);
    if rest.Some? {
      assert done + ([x.value] + rest.value.value) == done + [x.value] + rest.value.value;
    }
  }

  lemma RemainingEnd<T>(get: Decoder<T>, b: Bytes, start: nat, n: nat, done: seq<T>, pos: nat)
    requires Remaining(get, b, start, n, done, pos) && |done| == n
    ensures GetMany(get, b, start, n) == Some(Got(done, pos))
  {
    assert done + [] == done;
  }

  method DecodeStringMap(input: Bytes, pos: nat) returns (r: Option<Got<map<Bytes, Bytes>>>)
    ensures r == GetMap(input, pos)
  {
    var len := GetShort(input, pos);
    if len.None? { return None; }
    var result: map<Bytes, Bytes> := map[];
    var buffer := len.value.next;
    ghost var done: seq<Entry> := [];
    ghost var n: nat := if len.value.value < 0 then 0 else len.value.value;
    RemainingStart(EntryDecoder(), input, buffer, n);
    var i := 0;
    while i < len.value.value
      invariant i == |done| <= n && result == FirstWins(done)
      invariant Remaining(EntryDecoder(), input, pos + 2, n, done, buffer)
    {
      ghost var e := EntryDecoder()(input, buffer);
      var key := GetString(input, buffer);
      if key.None? { return None; }
      var value := GetString(input, key.value.next);
      if value.None? { return None; }
      FirstWinsSnoc(done, e.value.value);
      RemainingStep(EntryDecoder(), input, pos + 2, n, done, buffer, e.value);
      if key.value.value !in result {
        result := result[key.value.value := value.value.value];
      }
      buffer := value.value.next;
      done := done + [e.value.value];
      i := i + 1;
    }
    RemainingEnd(EntryDecoder(), input, pos + 2, n, done, buffer);
    return Some(Got(result, buffer));
  }

  method DecodeStringList(input: Bytes, pos: nat) returns (r: Option<Got<seq<Bytes>>>)
    ensures r == GetList(input, pos)
  {
    var len := GetShort(input, pos);
    if len.None? { return None; }
    var output: seq<Bytes> := [];
    var buffer := len.value.next;
    ghost var n: nat := if len.value.value < 0 then 0 else len.value.value;
    RemainingStart(GetString, input, buffer, n);
    var i := 0;
    while i < len.value.value
      invariant i == |output| <= n
      invariant Remaining(GetString, input, pos + 2, n, output, buffer)
    {
      var s := GetString(input, buffer);
      if s.None? { return None; }
      RemainingStep(GetString, input, pos + 2, n, output, buffer, s.value);
      output := output + [s.value.value];
      buffer := s.value.next;
      i := i + 1;
    }
    RemainingEnd(GetString, input, pos + 2, n, output, buffer);
    return Some(Got(output, buffer));
  }

  method DecodeStringMultimap(input: Bytes, pos: nat) returns (r: Option<Got<map<Bytes, seq<Bytes>>>>)
    ensures r == GetMultimap(input, pos)
  {
    var len := GetShort(input, pos);
    if len.None? { return None; }
    var output: map<Bytes, seq<Bytes>> := map[];
    var buffer := len.value.next;
    ghost var done: seq<MultiEntry> := [];
    ghost var n: nat := if len.value.value < 0 then 0 else len.value.value;
    RemainingStart(MultiEntryDecoder(), input, buffer, n);
    var i := 0;
    while i < len.value.value
      invariant i == |done| <= n && output == FirstWins(done)
      invariant Remaining(MultiEntryDecoder(), input, pos + 2, n, done, buffer)
    {
      ghost var e := MultiEntryDecoder()(input, buffer);
      var key := GetString(input, buffer);
      if key.None? { return None; }
      var value := DecodeStringList(input, key.value.next);
      if value.None? { return None; }
      FirstWinsSnoc(done, e.value.value);
      RemainingStep(MultiEntryDecoder(), input, pos + 2, n, done, buffer, e.value);
      if key.value.value !in output {
        output := output[key.value.value := value.value.value];
      }
      buffer := value.value.next;
      done := done + [e.value.value];
      i := i + 1;
    }
    RemainingEnd(MultiEntryDecoder(), input, pos + 2, n, done, buffer);
    return Some(Got(output, buffer));
  }

  method DecodeOption(input: Bytes, pos: nat) returns (r: Option<Got<TypeOption>>)
    ensures r == OptionDecoder()(input, pos)
  {
    OptionSteps(input, pos);
    var id := GetShort(input, pos);
    if id.None? { return None; }
    if id.value.value != TYPE_CUSTOM { return Some(Got(TypeOption(id.value.value, None), id.value.next)); }
    var name := GetString(input, id.value.next);
    if name.None? { return None; }
    return Some(Got(TypeOption(id.value.value, Some(name.value.value)), name.value.next));
  }
}
