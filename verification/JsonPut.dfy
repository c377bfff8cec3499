/** What comes back of a value that was put: `store_put` writes it with `encode_value`, `store_get` reads it with `json_parse`. */
module JsonPut {
  import opened Bytes
  import opened Json
  import opened JsonData
  import opened JsonText
  import opened Seqs
  import Scan

  // ----- depth

  lemma {:induction false} InsertDepth(e: Entry, entries: seq<Entry>)
    ensures DepthEntries(InsertEntry(e, entries)) == Max(1 + Depth(e.value), DepthEntries(entries))
  {
    hide Depth, Scan.Less;
    if entries != [] && Scan.Less(entries[0].key, e.key) {
      InsertDepth(e, entries[1..]);
    }
  }

  lemma {:induction false} SortDepth(entries: seq<Entry>)
    ensures DepthEntries(SortEntries(entries)) == DepthEntries(entries)
  {
    hide Depth, InsertEntry;
    if entries != [] {
      SortDepth(entries[1..]);
      InsertDepth(entries[0], SortEntries(entries[1..]));
    }
  }

  /** Sorting nests nothing deeper. */
  lemma {:induction false} SortedDepth(v: Json)
    ensures Depth(Sorted(v)) == Depth(v)
    decreases v
  {
    match v
    case List(items) => SortedItemsDepth(items);
    case Object(entries) =>
      SortedEntriesDepth(entries);
      SortDepth(SortedEntries(entries));
    case _ =>
  }

  lemma {:induction false} SortedItemsDepth(items: seq<Json>)
    ensures DepthItems(SortedItems(items)) == DepthItems(items)
    decreases items
  {
    hide Depth, Sorted;
    if items != [] {
      SortedDepth(items[0]);
      SortedItemsDepth(items[1..]);
    }
  }

  lemma {:induction false} SortedEntriesDepth(entries: seq<Entry>)
    ensures DepthEntries(SortedEntries(entries)) == DepthEntries(entries)
    decreases entries
  {
    hide Depth, Sorted;
    if entries != [] {
      SortedDepth(entries[0].value);
      SortedEntriesDepth(entries[1..]);
    }
  }

  /** Text without NUL can only be too deep to be written. */
  lemma {:induction false} OnlyDepth(v: Json, depth: nat)
    requires InOrder(v)
    ensures Fault(v, depth) == if depth + Depth(v) > MAX_DEPTH then Some(Limit) else None
    decreases v
  {
    hide Ascending;
    match v
    case List(items) =>
      if items != [] {
        if depth < MAX_DEPTH { OnlyDepthItems(items, depth + 1); } else { ItemFault(items, depth + 1); }
      }
    case Object(entries) =>
      if entries != [] {
        if depth < MAX_DEPTH { OnlyDepthEntries(entries, depth + 1); } else { EntryFault(entries, depth + 1); }
      }
    case _ =>
  }

  lemma ItemFault(items: seq<Json>, depth: nat)
    requires items != [] && depth > MAX_DEPTH
    ensures FaultItems(items, depth) == Some(Limit) && DepthItems(items) >= 1
  {}

  lemma EntryFault(entries: seq<Entry>, depth: nat)
    requires entries != [] && depth > MAX_DEPTH && TextOk(entries[0].key)
    ensures FaultEntries(entries, depth) == Some(Limit) && DepthEntries(entries) >= 1
  {}

  lemma {:induction false} OnlyDepthItems(items: seq<Json>, depth: nat)
    requires 1 <= depth <= MAX_DEPTH && forall i :: 0 <= i < |items| ==> InOrder(items[i])
    ensures FaultItems(items, depth) == if depth - 1 + DepthItems(items) > MAX_DEPTH then Some(Limit) else None
    decreases items
  {
    hide Fault, Depth, InOrder;
    if items != [] {
      OnlyDepth(items[0], depth);
      OnlyDepthItems(items[1..], depth);
    }
  }

  lemma {:induction false} OnlyDepthEntries(entries: seq<Entry>, depth: nat)
    requires 1 <= depth <= MAX_DEPTH && forall i :: 0 <= i < |entries| ==> TextOk(entries[i].key) && InOrder(entries[i].value)
    ensures FaultEntries(entries, depth) == if depth - 1 + DepthEntries(entries) > MAX_DEPTH then Some(Limit) else None
    decreases entries
  {
    hide Fault, Depth, InOrder;
    if entries != [] {
      OnlyDepth(entries[0].value, depth);
      OnlyDepthEntries(entries[1..], depth);
    }
  }

  // ----- what is kept

  /** Somewhere in the value is a number that prints as a large integer. */
  predicate Large(p: Printer, v: Json) {
    match v
    case Number(n) => LargeInteger(p.show(n))
    case List(items) => exists i :: 0 <= i < |items| && Large(p, items[i])
    case Object(entries) => exists i :: 0 <= i < |entries| && Large(p, entries[i].value)
    case _ => false
  }

  lemma {:induction false} KeptItemAt(p: Printer, items: seq<Json>)
    ensures forall i :: 0 <= i < |items| ==> KeptItems(p, items)[i] == Kept(p, items[i])
    decreases items
  {
    hide Kept;
    if items != [] { KeptItemAt(p, items[1..]); }
  }

  lemma {:induction false} KeptAt(p: Printer, entries: seq<Entry>)
    ensures forall i :: 0 <= i < |entries| ==> KeptEntries(p, entries)[i] == Entry(entries[i].key, Kept(p, entries[i].value))
    decreases entries
  {
    hide Kept;
    if entries != [] { KeptAt(p, entries[1..]); }
  }

  /** A value is kept as it is if and only if no number in it prints as a large integer. */
  lemma {:induction false} KeptSame(p: Printer, v: Json)
    ensures Kept(p, v) == v <==> !Large(p, v)
    decreases v
  {
    hide LargeInteger;
    match v
    case List(items) =>
      KeptItemAt(p, items);
      forall i | 0 <= i < |items| ensures Kept(p, items[i]) == items[i] <==> !Large(p, items[i]) { KeptSame(p, items[i]); }
      if !Large(p, v) { assert KeptItems(p, items) == items; }
    case Object(entries) =>
      KeptAt(p, entries);
      forall i | 0 <= i < |entries| ensures Kept(p, entries[i].value) == entries[i].value <==> !Large(p, entries[i].value) {
        KeptSame(p, entries[i].value);
      }
      if !Large(p, v) { assert KeptEntries(p, entries) == entries; }
    case _ =>
  }

  /** Nothing large is left, and what was in order still is. */
  lemma {:induction false} KeptInOrder(p: Printer, v: Json)
    requires Lawful(p) && InOrder(v)
    ensures InOrder(Kept(p, v)) && !Large(p, Kept(p, v)) && Depth(Kept(p, v)) == Depth(v)
    decreases v
  {
    hide LargeInteger, TextOk, Ascending, Scan.Less, Lawful;
    match v
    case Number(n) => ShownText(p, n);
    case List(items) =>
      KeptItemAt(p, items);
      KeptItemsDepth(p, items);
      forall i | 0 <= i < |items| ensures InOrder(Kept(p, items[i])) && !Large(p, Kept(p, items[i])) { KeptInOrder(p, items[i]); }
    case Object(entries) =>
      KeptAt(p, entries);
      KeptEntriesDepth(p, entries);
      SameKeys(entries, KeptEntries(p, entries));
      forall i | 0 <= i < |entries| ensures InOrder(Kept(p, entries[i].value)) && !Large(p, Kept(p, entries[i].value)) {
        KeptInOrder(p, entries[i].value);
      }
    case _ =>
  }

  lemma SameKeys(a: seq<Entry>, b: seq<Entry>)
    requires Ascending(a) && |a| == |b| && forall i :: 0 <= i < |a| ==> a[i].key == b[i].key
    ensures Ascending(b)
  {
    hide Scan.Less;
  }

  lemma ShownText(p: Printer, n: nat)
    requires Lawful(p)
    ensures TextOk(p.show(n))
  {}

  lemma {:induction false} KeptItemsDepth(p: Printer, items: seq<Json>)
    requires Lawful(p) && forall i :: 0 <= i < |items| ==> InOrder(items[i])
    ensures DepthItems(KeptItems(p, items)) == DepthItems(items)
    decreases items
  {
    hide Depth, Kept, InOrder, Lawful;
    if items != [] {
      KeptInOrder(p, items[0]);
      KeptItemsDepth(p, items[1..]);
    }
  }

  lemma {:induction false} KeptEntriesDepth(p: Printer, entries: seq<Entry>)
    requires Lawful(p) && forall i :: 0 <= i < |entries| ==> TextOk(entries[i].key) && InOrder(entries[i].value)
    ensures DepthEntries(KeptEntries(p, entries)) == DepthEntries(entries)
    decreases entries
  {
    hide Depth, Kept, InOrder, Lawful, TextOk;
    if entries != [] {
      KeptInOrder(p, entries[0].value);
      KeptEntriesDepth(p, entries[1..]);
    }
  }

  // ----- put, then get

  /** Text reads back as it was written, kept; nested deeper than 128 it does not read back. */
  lemma TextKept(p: Printer, v: Json)
    requires Lawful(p) && InOrder(v)
    ensures ParseText(p, Write(p, v)) == if Depth(v) > 128 then Err(Limit) else Ok(Kept(p, v))
  {
    hide ReadData, Write, Lawful, Kept, Depth, InOrder;
    DataRead(p, v, [], 0);
    assert Write(p, v) + [] == Write(p, v);
    SkipNone([]);
  }

  /** A value can be put unless it is nested deeper than 256. */
  lemma Puts(p: Printer, v: Json)
    requires Good(v)
    ensures Encode(p, v) == if Depth(v) > 256 then Err(Limit) else Ok(Write(p, Sorted(v)))
  {
    hide Fault, Sorted, Write, Good, InOrder, Depth;
    SortedInOrder(v);
    OnlyDepth(Sorted(v), 0);
    SortedDepth(v);
  }

  /** What a value put is when it is got: nested deeper than 128 it is never read, and large integers are text. */
  lemma PutGet(p: Printer, v: Json)
    requires Lawful(p) && Good(v) && Encode(p, v).Ok?
    ensures ParseText(p, Encode(p, v).value) == if Depth(v) > 128 then Err(Limit) else Ok(Kept(p, Sorted(v)))
  {
    hide Fault, Sorted, Write, Lawful, Kept, Depth, Good, InOrder, ParseText;
    SortedInOrder(v);
    SortedDepth(v);
    TextKept(p, Sorted(v));
  }

  lemma {:induction false} SortedLarge(p: Printer, v: Json)
    ensures Large(p, Sorted(v)) <==> Large(p, v)
    decreases v
  {
    hide LargeInteger, SortEntries;
    match v
    case List(items) =>
      SortedItemAt(items);
      forall i | 0 <= i < |items| ensures Large(p, Sorted(items[i])) <==> Large(p, items[i]) { SortedLarge(p, items[i]); }
    case Object(entries) =>
      var es := SortedEntries(entries);
      SortedAt(entries);
      forall i | 0 <= i < |entries| ensures Large(p, es[i].value) <==> Large(p, entries[i].value) { SortedLarge(p, entries[i].value); }
      SortedLargeEntries(p, es);
      assert LargeAmong(p, es) <==> LargeAmong(p, entries);
      assert Large(p, Sorted(v)) <==> LargeAmong(p, SortEntries(es));
      assert Large(p, v) <==> LargeAmong(p, entries);
    case _ =>
  }

  predicate LargeAmong(p: Printer, es: seq<Entry>) { exists i :: 0 <= i < |es| && Large(p, es[i].value) }

  lemma AmongMore(p: Printer, a: seq<Entry>, b: seq<Entry>)
    requires LargeAmong(p, a) && forall x :: x in a ==> x in b
    ensures LargeAmong(p, b)
  {
    hide Large;
    var i :| 0 <= i < |a| && Large(p, a[i].value);
    assert a[i] in a;
    var j :| 0 <= j < |b| && b[j] == a[i];
  }

  lemma SortedLargeEntries(p: Printer, es: seq<Entry>)
    ensures LargeAmong(p, SortEntries(es)) <==> LargeAmong(p, es)
  {
    hide LargeAmong;
    SortMembers(es);
    if LargeAmong(p, es) { AmongMore(p, es, SortEntries(es)); }
    if LargeAmong(p, SortEntries(es)) { AmongMore(p, SortEntries(es), es); }
  }

  /**
   A value that was put is got again, but for the order of its maps, if and only if it is nested at most 128 deep and
   no number in it is an integer above 2^53 that prints without an exponent.
   */
  lemma PutGetSame(p: Printer, v: Json)
    requires Lawful(p) && Good(v) && Encode(p, v).Ok?
    ensures ParseText(p, Encode(p, v).value) == Ok(Sorted(v)) <==> Depth(v) <= 128 && !Large(p, v)
  {
    hide Encode, Sorted, Lawful, Kept, Depth, Good, ParseText, Large;
    PutGet(p, v);
    KeptSame(p, Sorted(v));
    SortedLarge(p, v);
  }

  /** Getting a value and putting it again settles it: the text that gives is read and written the same ever after. */
  lemma GetPutSettles(p: Printer, v: Json)
    requires Lawful(p) && Good(v) && Depth(v) <= DATA_DEPTH
    ensures var u := Kept(p, Sorted(v));
            InOrder(u) && Depth(u) == Depth(v) && Encode(p, u) == Ok(Write(p, u)) && ParseText(p, Write(p, u)) == Ok(u)
  {
    hide Fault, Sorted, Write, Lawful, Kept, Depth, Good, InOrder, ParseText, Large;
    SortedInOrder(v);
    SortedDepth(v);
    var u := Kept(p, Sorted(v));
    KeptInOrder(p, Sorted(v));
    KeptSame(p, u);
    SortedKeeps(u);
    OnlyDepth(u, 0);
    TextKept(p, u);
  }

  // ----- values that are not got again

  /** "10000000000000000" */
  const TEN_TO_16: bytes := [49, 48, 48, 48, 48, 48, 48, 48, 48, 48, 48, 48, 48, 48, 48, 48, 48]

  /** The number 10^16 is put, and what is got is a string. */
  lemma LargeIntegerIsText(p: Printer, n: nat)
    requires Lawful(p) && p.show(n) == TEN_TO_16
    ensures Encode(p, Number(n)) == Ok(TEN_TO_16) && ParseText(p, TEN_TO_16) == Ok(Text(TEN_TO_16))
  {
    hide ParseText, Lawful;
    PutGet(p, Number(n));
    assert LargeInteger(TEN_TO_16);
  }

  /** A list in a list and so on, `depth` deep. */
  function Nested(depth: nat): (v: Json)
    ensures Depth(v) == depth && Good(v) && Sorted(v) == v
  {
    if depth == 0 then List([]) else
    var inner := [Nested(depth - 1)];
    assert DepthItems(inner) == depth && SortedItems(inner) == inner by { assert inner[1..] == []; }
    List(inner)
  }

  /** Lists nested more than 128 and at most 256 deep can be put, and never got. */
  lemma DeepIsLost(p: Printer, depth: nat)
    requires Lawful(p) && DATA_DEPTH < depth <= MAX_DEPTH
    ensures Encode(p, Nested(depth)).Ok? && ParseText(p, Encode(p, Nested(depth)).value) == Err(Limit)
  {
    hide Encode, ParseText, Lawful, Depth, Sorted, Good;
    Puts(p, Nested(depth));
    PutGet(p, Nested(depth));
  }
}
