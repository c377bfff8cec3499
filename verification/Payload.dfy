/**
 The payload of a journal record: the staged mutations of one revision, one after another.
 SHA-256 is a parameter `h` of every definition, so each result holds whatever the hash computes.
 */
module Payload {
  import opened Bytes
  import opened Seqs
  import Utf8

  const STORE_LIMIT := 256 * 1024 * 1024

  type digest = d: bytes | |d| == 32 witness seq(32, _ => 0)

  type Hash = bytes -> digest

  datatype Mutation = Mutation(key: bytes, deleted: bool, data: bytes)

  predicate NulFree(s: bytes) { 0 !in s }

  /** What `stage` guarantees: keys are non-empty strings, data is canonical JSON text. */
  predicate Staged(m: Mutation) {
    m.key != [] && Utf8.Valid(m.key) && NulFree(m.data) && (m.deleted ==> m.data == [])
  }

  predicate AllStaged(ms: seq<Mutation>) { forall i :: 0 <= i < |ms| ==> Staged(ms[i]) }

  /** The check that `parse_payload` makes of keys and `stage` does not. */
  predicate KeysNulFree(ms: seq<Mutation>) { forall i :: 0 <= i < |ms| ==> NulFree(ms[i].key) }

  function Tag(m: Mutation): bytes { [(if m.deleted then 'D' else 'P') as int] }

  function EncodeData(h: Hash, data: bytes): bytes { h(data) + (ToBE(|data|, 8) + data) }

  function Encode(h: Hash, m: Mutation): bytes {
    Tag(m) + (ToBE(|m.key|, 4) + (m.key + if m.deleted then [] else EncodeData(h, m.data)))
  }

  function EncodeAll(h: Hash, ms: seq<Mutation>): bytes {
    if ms == [] then [] else Encode(h, ms[0]) + EncodeAll(h, ms[1..])
  }

  /** Where the parts of a mutation stand: "P" or "D", the length of the key, the key, and for a put the digest, length and data. */
  lemma MutationLayout(h: Hash, m: Mutation)
    ensures var (e, k) := (Encode(h, m), 5 + |m.key|);
            && |e| == (if m.deleted then k else k + 40 + |m.data|)
            && e[0] == (if m.deleted then 0x44 else 0x50) && e[1..5] == ToBE(|m.key|, 4) && e[5..k] == m.key
            && (!m.deleted ==> e[k..k + 32] == h(m.data) && e[k + 32..k + 40] == ToBE(|m.data|, 8) && e[k + 40..] == m.data)
  {
    hide ToBE, EncodeData;
    var (e, k) := (Encode(h, m), 5 + |m.key|);
    var value := if m.deleted then [] else EncodeData(h, m.data);
    assert |ToBE(|m.key|, 4)| == 4;
    Slices4(Tag(m), ToBE(|m.key|, 4), m.key, value);
    if !m.deleted {
      DataLayout(h, m.data);
      Shift(e, k, 32);
      assert e[k + 32..k + 40] == e[k..][32..40] && e[k + 40..] == e[k..][40..];
    }
  }

  lemma DataLayout(h: Hash, data: bytes)
    ensures var d := EncodeData(h, data);
            |d| == 40 + |data| && d[..32] == h(data) && d[32..40] == ToBE(|data|, 8) && d[40..] == data
  {
    hide ToBE;
    Slices3(h(data), ToBE(|data|, 8), data);
  }

  /** The digest-checked value at the head of `s` and what follows it. */
  function ParseData(h: Hash, s: bytes): (r: Result<(bytes, bytes)>)
    ensures r.Ok? ==> |r.value.1| <= |s|
  {
    if |s| < 32 then Err(Corruption) else
    var digest, s1 := s[..32], s[32..];
    if |s1| < 8 then Err(Corruption) else
    var length, s2 := FromBE(s1[..8]), s1[8..];
    if length > STORE_LIMIT || length > |s2| || !NulFree(s2[..length]) || h(s2[..length]) != digest
    then Err(Corruption)
    else Ok((s2[..length], s2[length..]))
  }

  /** The key at the head of `s` and what follows it. */
  function ParseKey(s: bytes): (r: Result<(bytes, bytes)>)
    ensures r.Ok? ==> |r.value.1| + 5 <= |s|
  {
    if |s| < 4 then Err(Corruption) else
    var length, s1 := FromBE(s[..4]), s[4..];
    if length == 0 || length > |s1| || !Utf8.Valid(s1[..length]) || !NulFree(s1[..length])
    then Err(Corruption)
    else Ok((s1[..length], s1[length..]))
  }

  /** The mutation at the head of `s` and what follows it. */
  function ParseOne(h: Hash, s: bytes): (r: Result<(Mutation, bytes)>)
    ensures r.Ok? ==> |r.value.1| + 6 <= |s|
  {
    if |s| == 0 || (s[0] != 'P' as int && s[0] != 'D' as int) then Err(Corruption) else
    var key := ParseKey(s[1..]);
    if key.Err? then Err(Corruption) else
    if s[0] == 'D' as int then Ok((Mutation(key.value.0, true, []), key.value.1)) else
    var data := ParseData(h, key.value.1);
    if data.Err? then Err(Corruption) else
    Ok((Mutation(key.value.0, false, data.value.0), data.value.1))
  }

  function ParseAll(h: Hash, s: bytes, count: nat): (r: Result<seq<Mutation>>)
    ensures r.Ok? ==> |r.value| == count && 6 * count <= |s|
    ensures r.Err? ==> r.error == Corruption
  {
    if count == 0 then
      if s == [] then Ok([]) else Err(Corruption)
    else
      var first := ParseOne(h, s);
      if first.Err? then Err(Corruption) else
      var more := ParseAll(h, first.value.1, count - 1);
      if more.Err? then more else Ok([first.value.0] + more.value)
  }

  // ----- encoding then parsing

  lemma ParseDataEncode(h: Hash, data: bytes, rest: bytes)
    requires NulFree(data) && |data| <= STORE_LIMIT
    ensures ParseData(h, EncodeData(h, data) + rest) == Ok((data, rest))
  {
    var length := ToBE(|data|, 8);
    Widths();
    FromToBE(|data|, 8);
    assert EncodeData(h, data) + rest == h(data) + (length + (data + rest)) by {
      Assoc(h(data), length + data, rest);
      Assoc(length, data, rest);
    }
    Peel(h(data), length + (data + rest));
    Peel(length, data + rest);
    Peel(data, rest);
  }

  lemma ParseKeyEncode(key: bytes, rest: bytes)
    requires key != [] && Utf8.Valid(key) && |key| <= STORE_LIMIT
    ensures ParseKey(ToBE(|key|, 4) + (key + rest))
         == if NulFree(key) then Ok((key, rest)) else Err(Corruption)
  {
    Widths();
    FromToBE(|key|, 4);
    Peel(ToBE(|key|, 4), key + rest);
    Peel(key, rest);
  }

  lemma EncodeThen(h: Hash, m: Mutation, rest: bytes)
    ensures Encode(h, m) + rest
         == Tag(m) + (ToBE(|m.key|, 4) + (m.key + if m.deleted then rest else EncodeData(h, m.data) + rest))
  {
    hide EncodeData, ToBE, Tag;
    if m.deleted {
      Nest4(Tag(m), ToBE(|m.key|, 4), m.key, [], rest);
      assert [] + rest == rest;
    } else {
      Nest4(Tag(m), ToBE(|m.key|, 4), m.key, EncodeData(h, m.data), rest);
    }
  }

  lemma ParseTagged(h: Hash, m: Mutation, s: bytes)
    ensures ParseOne(h, Tag(m) + s)
         == (var key := ParseKey(s);
             if key.Err? then Err(Corruption) else
             if m.deleted then Ok((Mutation(key.value.0, true, []), key.value.1)) else
             var data := ParseData(h, key.value.1);
             if data.Err? then Err(Corruption) else
             Ok((Mutation(key.value.0, false, data.value.0), data.value.1)))
  {
    hide ParseKey, ParseData;
    Peel(Tag(m), s);
  }

  /** A mutation `stage` accepts is read back, with whatever follows it, unless its key holds a NUL. */
  lemma ParseOneEncode(h: Hash, m: Mutation, rest: bytes)
    requires Staged(m) && |Encode(h, m)| <= STORE_LIMIT
    ensures ParseOne(h, Encode(h, m) + rest)
         == if NulFree(m.key) then Ok((m, rest)) else Err(Corruption)
  {
    hide EncodeData, ParseData, ParseKey, ParseOne, ToBE, Utf8.Valid, Tag, Encode;
    var body := if m.deleted then rest else EncodeData(h, m.data) + rest;
    EncodeSize(h, m);
    EncodeThen(h, m, rest);
    ParseTagged(h, m, ToBE(|m.key|, 4) + (m.key + body));
    ParseKeyEncode(m.key, body);
    if !m.deleted {
      ParseDataEncode(h, m.data, rest);
    }
  }

  /**
   What `build_payload` writes for staged mutations parses back to them if and only if
   no key contains a NUL, the one thing `stage` lets through and the parser refuses.
   */
  lemma {:induction false} ParseAllEncode(h: Hash, ms: seq<Mutation>)
    requires AllStaged(ms) && |EncodeAll(h, ms)| <= STORE_LIMIT
    ensures ParseAll(h, EncodeAll(h, ms), |ms|) == if KeysNulFree(ms) then Ok(ms) else Err(Corruption)
  {
    hide ParseOne, Encode, Staged, NulFree, AllStaged, KeysNulFree;
    if ms != [] {
      var (m, more) := (ms[0], ms[1..]);
      assert ms == [m] + more;
      PushStaged(h, m, more);
      ParseOneEncode(h, m, EncodeAll(h, more));
      ParseAllEncode(h, more);
    } else {
      NothingStaged();
    }
  }

  // ----- parsing then encoding

  lemma ParseDataOnly(h: Hash, s: bytes)
    requires ParseData(h, s).Ok?
    ensures var (data, rest) := ParseData(h, s).value;
            NulFree(data) && s == EncodeData(h, data) + rest
  {
    var (data, rest) := ParseData(h, s).value;
    var s1 := s[32..];
    var s2 := s1[8..];
    Rejoin(s, 32);
    Rejoin(s1, 8);
    Rejoin(s2, |data|);
    ToFromBE(s1[..8]);
    Assoc(ToBE(|data|, 8), data, rest);
    Assoc(h(data), ToBE(|data|, 8) + data, rest);
  }

  lemma ParseKeyOnly(s: bytes)
    requires ParseKey(s).Ok?
    ensures var (key, rest) := ParseKey(s).value;
            key != [] && Utf8.Valid(key) && NulFree(key) && s == ToBE(|key|, 4) + (key + rest)
  {
    var (key, rest) := ParseKey(s).value;
    Rejoin(s, 4);
    Rejoin(s[4..], |key|);
    ToFromBE(s[..4]);
  }

  lemma ParseOneOnly(h: Hash, s: bytes)
    requires ParseOne(h, s).Ok?
    ensures var (m, rest) := ParseOne(h, s).value;
            Staged(m) && NulFree(m.key) && s == Encode(h, m) + rest
  {
    var (m, rest) := ParseOne(h, s).value;
    hide EncodeData, ParseData, ParseKey, Encode;
    ParseKeyOnly(s[1..]);
    Rejoin(s, 1);
    assert s[..1] == Tag(m);
    if !m.deleted {
      ParseDataOnly(h, ParseKey(s[1..]).value.1);
    }
    EncodeThen(h, m, rest);
  }

  lemma PushStaged(h: Hash, m: Mutation, ms: seq<Mutation>)
    ensures EncodeAll(h, [m] + ms) == Encode(h, m) + EncodeAll(h, ms)
    ensures AllStaged([m] + ms) <==> Staged(m) && AllStaged(ms)
    ensures KeysNulFree([m] + ms) <==> NulFree(m.key) && KeysNulFree(ms)
  {
    hide Staged, NulFree, Encode;
    var all := [m] + ms;
    assert all[0] == m && all[1..] == ms;
    assert forall i :: 0 <= i < |ms| ==> all[i + 1] == ms[i];
  }

  /** Any payload the parser accepts is, byte for byte, the encoding of the mutations it returns. */
  lemma {:induction false} ParseAllOnly(h: Hash, s: bytes, count: nat)
    requires ParseAll(h, s, count).Ok?
    ensures s == EncodeAll(h, ParseAll(h, s, count).value)
    ensures AllStaged(ParseAll(h, s, count).value) && KeysNulFree(ParseAll(h, s, count).value)
    decreases count
  {
    hide ParseOne, Encode, Staged, NulFree, AllStaged, KeysNulFree;
    if count > 0 {
      ParseOneOnly(h, s);
      var (m, rest) := ParseOne(h, s).value;
      ParseAllOnly(h, rest, count - 1);
      PushStaged(h, m, ParseAll(h, rest, count - 1).value);
    } else {
      NothingStaged();
    }
  }

  lemma NothingStaged()
    ensures AllStaged([]) && KeysNulFree([])
  {}

  // ----- the loops of the store

  lemma {:induction false} EncodeAllAppend(h: Hash, a: seq<Mutation>, b: seq<Mutation>)
    ensures EncodeAll(h, a + b) == EncodeAll(h, a) + EncodeAll(h, b)
    decreases |a|
  {
    hide Encode, EncodeAll, Staged, NulFree;
    if a == [] {
      assert a + b == b;
      EncodeNone(h);
      assert [] + EncodeAll(h, b) == EncodeAll(h, b);
    } else {
      var (m, more) := (a[0], a[1..]);
      assert a == [m] + more;
      Assoc([m], more, b);
      PushStaged(h, m, more);
      PushStaged(h, m, more + b);
      EncodeAllAppend(h, more, b);
      Assoc(Encode(h, m), EncodeAll(h, more), EncodeAll(h, b));
    }
  }

  lemma EncodeNone(h: Hash)
    ensures EncodeAll(h, []) == []
  {}

  lemma EncodeAllOne(h: Hash, m: Mutation)
    ensures EncodeAll(h, [m]) == Encode(h, m)
  {
    hide Encode;
    assert Encode(h, m) + [] == Encode(h, m);
  }

  lemma EncodeAllStep(h: Hash, ms: seq<Mutation>, i: nat)
    requires i < |ms|
    ensures EncodeAll(h, ms[..i + 1]) == EncodeAll(h, ms[..i]) + Encode(h, ms[i])
    ensures |EncodeAll(h, ms[..i + 1])| <= |EncodeAll(h, ms)|
  {
    hide Encode, EncodeAll;
    Rejoin(ms, i + 1);
    EncodeAllAppend(h, ms[..i + 1], ms[i + 1..]);
    assert ms[..i + 1] == ms[..i] + [ms[i]];
    EncodeAllAppend(h, ms[..i], [ms[i]]);
    EncodeAllOne(h, ms[i]);
  }

  lemma EncodeSize(h: Hash, m: Mutation)
    requires m.deleted ==> m.data == []
    ensures |Encode(h, m)| == 5 + |m.key| + (if m.deleted then 0 else 40) + |m.data|
  {}

  lemma {:induction false} EncodeAllSize(h: Hash, ms: seq<Mutation>)
    requires AllStaged(ms)
    ensures 6 * |ms| <= |EncodeAll(h, ms)|
  {
    hide Encode;
    if ms != [] {
      EncodeSize(h, ms[0]);
      EncodeAllSize(h, ms[1..]);
    }
  }

  method BuildPayload(h: Hash, mutations: seq<Mutation>) returns (r: Result<bytes>)
    requires AllStaged(mutations)
    ensures r == if |EncodeAll(h, mutations)| <= 268_435_456
                 then Ok(EncodeAll(h, mutations)) else Err(Limit)
  {
    hide Encode;
    var payload: bytes := [];
    for i := 0 to |mutations|
      invariant payload == EncodeAll(h, mutations[..i])
      invariant |payload| <= STORE_LIMIT
    {
      var m := mutations[i];
      EncodeAllStep(h, mutations, i);
      EncodeSize(h, m);
      if |m.key| > 0xFFFF_FFFF {
        return Err(Limit);
      }
      var added := 5 + |m.key| + (if m.deleted then 0 else 40) + |m.data|;
      if |payload| + added > STORE_LIMIT {
        return Err(Limit);
      }
      payload := AppendMutation(h, payload, m);
    }
    assert mutations[..|mutations|] == mutations;
    return Ok(payload);
  }

  method AppendMutation(h: Hash, payload: bytes, m: Mutation) returns (out: bytes)
    ensures out == payload + Encode(h, m)
  {
    hide ToBE;
    out := payload + [(if m.deleted then 'D' else 'P') as int];
    out := out + ToBE(|m.key|, 4);
    out := out + m.key;
    Append4(payload, Tag(m), ToBE(|m.key|, 4), m.key, []);
    if !m.deleted {
      ghost var data := EncodeData(h, m.data);
      Append4(payload, Tag(m), ToBE(|m.key|, 4), m.key, data);
      Append3(out, h(m.data), ToBE(|m.data|, 8), m.data);
      out := out + h(m.data);
      out := out + ToBE(|m.data|, 8);
      out := out + m.data;
    }
  }

  lemma PrependStep(h: Hash, ms: seq<Mutation>, s: bytes, count: nat)
    requires count > 0
    ensures Joined(ms, ParseAll(h, s, count))
         == if ParseOne(h, s).Err? then Err(Corruption)
            else Joined(ms + [ParseOne(h, s).value.0], ParseAll(h, ParseOne(h, s).value.1, count - 1))
  {
    hide ParseOne;
    if ParseAll(h, s, count).Ok? {
      var (m, rest) := ParseOne(h, s).value;
      Assoc(ms, [m], ParseAll(h, rest, count - 1).value);
    }
  }

  lemma PrependNothing(h: Hash, s: bytes, count: nat)
    ensures s[0..] == s && Joined([], ParseAll(h, s, count)) == ParseAll(h, s, count)
  {
    hide ParseOne;
    if ParseAll(h, s, count).Ok? {
      assert [] + ParseAll(h, s, count).value == ParseAll(h, s, count).value;
    }
  }

  lemma PrependDone(h: Hash, ms: seq<Mutation>, s: bytes)
    ensures Joined(ms, ParseAll(h, s, 0)) == if s == [] then Ok(ms) else Err(Corruption)
  {
    assert ms + [] == ms;
  }

  /** The cursor loop of `parse_payload`. */
  method ParsePayload(h: Hash, data: bytes, count: nat) returns (r: Result<seq<Mutation>>)
    ensures r == ParseAll(h, data, count)
  {
    hide ParseOne, ParseAll, Joined;
    var cursor, end := 0, |data|;
    if count > end / 6 {
      return Err(Corruption);
    }
    var mutations: seq<Mutation> := [];
    PrependNothing(h, data, count);
    for i := 0 to count
      invariant 0 <= cursor <= end
      invariant ParseAll(h, data, count) == Joined(mutations, ParseAll(h, data[cursor..], count - i))
    {
      PrependStep(h, mutations, data[cursor..], count - i);
      var step := ParseMutation(h, data, cursor);
      if step.Err? {
        return Err(step.error);
      }
      mutations := mutations + [step.value.0];
      cursor := step.value.1;
    }
    PrependDone(h, mutations, data[cursor..]);
    if cursor != end {
      return Err(Corruption);
    }
    return Ok(mutations);
  }

  /** One iteration of that loop: the mutation at `cursor` and the cursor after it. */
  method ParseMutation(h: Hash, data: bytes, start: nat) returns (r: Result<(Mutation, nat)>)
    requires start <= |data|
    ensures r.Err? <==> ParseOne(h, data[start..]).Err?
    ensures r.Err? ==> r.error == Corruption
    ensures r.Ok? ==> r.value.1 <= |data|
                      && ParseOne(h, data[start..]) == Ok((r.value.0, data[r.value.1..]))
  {
    hide ParseKey, ParseData;
    if start == |data| || (data[start] != 'P' as int && data[start] != 'D' as int) {
      return Err(Corruption);
    }
    Shift(data, start, 1);
    var key := ParseName(data, start + 1);
    if key.Err? {
      return Err(Corruption);
    }
    if data[start] == 'D' as int {
      return Ok((Mutation(key.value.0, true, []), key.value.1));
    }
    var value := ParseValue(h, data, key.value.1);
    if value.Err? {
      return Err(Corruption);
    }
    return Ok((Mutation(key.value.0, false, value.value.0), value.value.1));
  }

  method ParseName(data: bytes, start: nat) returns (r: Result<(bytes, nat)>)
    requires start <= |data|
    ensures r.Err? <==> ParseKey(data[start..]).Err?
    ensures r.Ok? ==> r.value.1 <= |data|
                      && ParseKey(data[start..]) == Ok((r.value.0, data[r.value.1..]))
  {
    var cursor, end := start, |data|;
    if end - cursor < 4 {
      return Err(Corruption);
    }
    Shift(data, cursor, 4);
    var keyLength := FromBE(data[cursor..cursor + 4]);
    cursor := cursor + 4;
    if keyLength == 0 || end - cursor < keyLength {
      return Err(Corruption);
    }
    Shift(data, cursor, keyLength);
    var key := data[cursor..cursor + keyLength];
    if !Utf8.Valid(key) || !NulFree(key) {
      return Err(Corruption);
    }
    return Ok((key, cursor + keyLength));
  }

  method ParseValue(h: Hash, data: bytes, start: nat) returns (r: Result<(bytes, nat)>)
    requires start <= |data|
    ensures r.Err? <==> ParseData(h, data[start..]).Err?
    ensures r.Ok? ==> r.value.1 <= |data|
                      && ParseData(h, data[start..]) == Ok((r.value.0, data[r.value.1..]))
  {
    var cursor, end := start, |data|;
    if end - cursor < 32 {
      return Err(Corruption);
    }
    Shift(data, cursor, 32);
    var expected := data[cursor..cursor + 32];
    cursor := cursor + 32;
    if end - cursor < 8 {
      return Err(Corruption);
    }
    Shift(data, cursor, 8);
    var length := FromBE(data[cursor..cursor + 8]);
    cursor := cursor + 8;
    if length > STORE_LIMIT || length > end - cursor {
      return Err(Corruption);
    }
    Shift(data, cursor, length);
    var value := data[cursor..cursor + length];
    if !NulFree(value) || h(value) != expected {
      return Err(Corruption);
    }
    return Ok((value, cursor + length));
  }
}
