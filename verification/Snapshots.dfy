/** Snapshot files: what `store_snapshot` encodes and publishes, and the checks of `load_snapshot`. */
module Snapshots {
  import opened Bytes
  import opened Journal
  import opened JsonText
  import opened Payload
  import opened Seqs
  import Scan

  /**
   The value codec of the store. `written` is what `encode_value` can give. `form` decodes one stored value with
   `json_parse` and encodes it again. `load` decodes the text of a snapshot with `decode_document`, all of it on one
   heap, and encodes its values. `shelf` says whether the map of a snapshot fits its heap without its values, and
   `room` whether it fits with them.
   */
  datatype Canon = Canon(
    written: bytes -> bool, form: bytes -> Result<bytes>, load: bytes -> Result<Index>,
    shelf: set<bytes> -> bool, room: Index -> bool)

  /** Decoding a second time gives the same again, and a snapshot of decoded values loads if they fit one heap. */
  ghost predicate Faithful(c: Canon) {
    && c.room(map[])
    && (forall s {:trigger c.form(s)} :: c.written(s) && c.form(s).Ok? ==>
          c.written(c.form(s).value) && c.form(c.form(s).value) == c.form(s))
    && (forall index {:trigger c.room(index)} :: Canonical(c, index) ==>
          c.load(SnapshotText(index)) == if c.room(index) then Ok(index) else Err(Oom))
  }

  /** Keys are text, and values are as decoding and encoding leaves them. */
  ghost predicate Canonical(c: Canon, index: Index) {
    forall k :: k in index ==> TextOk(k) && c.written(index[k]) && c.form(index[k]) == Ok(index[k])
  }

  // ----- the text

  const OPEN: byte := '{' as int
  const CLOSE: byte := '}' as int
  const COLON: byte := ':' as int
  const COMMA: byte := ',' as int

  function EntryText(key: bytes, value: bytes): bytes { Quoted(key) + ([COLON] + value) }

  function EntriesText(index: Index, keys: seq<bytes>): bytes
    requires forall i :: 0 <= i < |keys| ==> keys[i] in index
  {
    if keys == [] then []
    else if |keys| == 1 then EntryText(keys[0], index[keys[0]])
    else EntryText(keys[0], index[keys[0]]) + ([COMMA] + EntriesText(index, keys[1..]))
  }

  /** The JSON object of an index, its keys in order. */
  function SnapshotText(index: Index): bytes { [OPEN] + (EntriesText(index, Scan.Order(index.Keys)) + [CLOSE]) }

  // ----- what a snapshot is made of

  /** Every value decoded and encoded again, or the first error in the order of the keys. */
  function Formed(c: Canon, index: Index, keys: seq<bytes>): Result<Index>
    requires forall i :: 0 <= i < |keys| ==> keys[i] in index
    decreases |keys|
  {
    if keys == [] then Ok(map[]) else
    var n := |keys| - 1;
    var rest := Formed(c, index, keys[..n]);
    if rest.Err? then rest else
    var value := c.form(index[keys[n]]);
    if value.Err? then Err(value.error) else Ok(rest.value[keys[n] := value.value])
  }

  /** The index whose text a snapshot publishes, if it comes to that. */
  function Dump(c: Canon, index: Index): Result<Index> {
    if !c.shelf(index.Keys) then Err(Oom) else
    var decoded := Formed(c, index, Scan.Order(index.Keys));
    if decoded.Err? then decoded else
    if exists k :: k in index && 0 in k then Err(Schema) else decoded
  }

  lemma {:induction false} FormedAll(c: Canon, index: Index, keys: seq<bytes>)
    requires forall i :: 0 <= i < |keys| ==> keys[i] in index
    ensures var decoded := Formed(c, index, keys);
            && (decoded.Ok? <==> forall k :: k in keys ==> c.form(index[k]).Ok?)
            && (decoded.Ok? ==> (forall k :: k in decoded.value <==> k in keys)
                                && forall k :: k in decoded.value ==> c.form(index[k]) == Ok(decoded.value[k]))
    decreases |keys|
  {
    if keys != [] {
      var n := |keys| - 1;
      FormedAll(c, index, keys[..n]);
      assert keys == keys[..n] + [keys[n]];
    }
  }

  /** A snapshot is of every key, with the value decoded and encoded again. */
  lemma DumpAll(c: Canon, index: Index)
    requires Dump(c, index).Ok?
    ensures var dumped := Dump(c, index).value;
            dumped.Keys == index.Keys && forall k :: k in index ==> c.form(index[k]) == Ok(dumped[k]) && 0 !in k
  {
    FormedAll(c, index, Scan.Order(index.Keys));
  }

  // ----- the file

  const LSNP: bytes := ['L' as int, 'S' as int, 'N' as int, 'P' as int]

  function SnapshotFile(h: Hash, revision: nat, text: bytes): bytes {
    LSNP + (ToBE(revision, 8) + (ToBE(|text|, 8) + (h(text) + text)))
  }

  function LoadSnapshot(h: Hash, c: Canon, revision: nat, file: bytes): Result<Index> {
    if |file| < 52 || file[..4] != LSNP then Err(Corruption) else
    var length := FromBE(file[12..20]);
    if FromBE(file[4..12]) != revision || length > STORE_LIMIT || |file| != 52 + length then Err(Corruption) else
    if h(file[52..]) != file[20..52] then Err(Corruption) else c.load(file[52..])
  }

  /** A file that was written loads if its text is within the limit and decodes. */
  lemma LoadWritten(h: Hash, c: Canon, revision: nat, text: bytes)
    requires revision < U64
    ensures LoadSnapshot(h, c, revision, SnapshotFile(h, revision, text))
         == if |text| > 268_435_456 then Err(Corruption) else c.load(text)
  {
    hide ToBE, FromBE;
    var file := SnapshotFile(h, revision, text);
    var (r, n) := (ToBE(revision, 8), ToBE(|text|, 8));
    Widths();
    FromToBE(revision, 8);
    assert file[..4] == LSNP && file[4..12] == r && file[12..20] == n && file[20..52] == h(text) && file[52..] == text;
    if |text| <= STORE_LIMIT {
      FromToBE(|text|, 8);
    }
  }

  /** A file that loads for a revision is the one that was written for it, of at most 256 MiB of text. */
  lemma LoadOnly(h: Hash, c: Canon, revision: nat, file: bytes)
    requires LoadSnapshot(h, c, revision, file).Ok?
    ensures |file| >= 52 && |file[52..]| <= 268_435_456
    ensures file == SnapshotFile(h, revision, file[52..]) && c.load(file[52..]).Ok?
  {
    hide ToBE, FromBE;
    ToFromBE(file[4..12]);
    ToFromBE(file[12..20]);
    assert file == file[..4] + (file[4..12] + (file[12..20] + (file[20..52] + file[52..])));
  }

  /** Where the parts of a file stand: "LSNP", the revision, the length, the digest, the text. */
  lemma FileLayout(h: Hash, revision: nat, text: bytes)
    ensures var file := SnapshotFile(h, revision, text);
            && |file| == 52 + |text| && file[..4] == [0x4C, 0x53, 0x4E, 0x50] && file[4..12] == ToBE(revision, 8)
            && file[12..20] == ToBE(|text|, 8) && file[20..52] == h(text) && file[52..] == text
  {
    hide ToBE;
  }

  /** The text of a canonical index is within the limit, and its values fit one heap. */
  predicate Fits(c: Canon, index: Index) { |SnapshotText(index)| <= 268_435_456 && c.room(index) }

  /** A snapshot of nothing fits. */
  lemma NothingFits(c: Canon, index: Index)
    requires Faithful(c) && index.Keys == {} && Dump(c, index).Ok?
    ensures Fits(c, Dump(c, index).value)
  {
    DumpAll(c, index);
    assert Dump(c, index).value == map[];
    assert Scan.Order({}) == [] && EntriesText(map[], []) == [];
  }
}
