/** The flatten transform: nested objects become columns named after the path to their values. */
module Flattening {
  import opened Frames

  /** A decoded JSON cell; a list counts as a leaf. */
  datatype Json = Leaf(cell: Cell) | Object(fields: Fields)
  datatype Fields = NoField | Field(key: string, value: Json, rest: Fields)

  datatype Entry = Entry(name: string, value: Json)

  // --- a dict keeps insertion order; assigning a key again keeps its place -----------------------

  function Put(out: seq<Entry>, entry: Entry): seq<Entry> {
    if out == [] then [entry]
    else if out[0].name == entry.name then [entry] + out[1..]
    else [out[0]] + Put(out[1..], entry)
  }

  function PutAll(out: seq<Entry>, entries: seq<Entry>): seq<Entry> {
    if entries == [] then out
    else Put(PutAll(out, entries[..|entries| - 1]), entries[|entries| - 1])
  }

  lemma {:induction false} PutAllAgain(out: seq<Entry>, a: seq<Entry>, b: seq<Entry>)
    ensures PutAll(PutAll(out, a), b) == PutAll(out, a + b)
  {
    if b == [] {
      assert a + b == a;
    } else {
      PutAllAgain(out, a, b[..|b| - 1]);
      assert (a + b)[..|a + b| - 1] == a + b[..|b| - 1];
    }
  }

  // --- what is found where -----------------------------------------------------------------------

  function Child(fields: Fields, key: string): Option<Json> {
    if fields.NoField? then None else if fields.key == key then Some(fields.value) else Child(fields.rest, key)
  }

  function At(value: Json, path: seq<string>): Option<Json>
    decreases |path|
  {
    if path == [] then Some(value)
    else if value.Leaf? then None
    else
      var child := Child(value.fields, path[0]);
      if child.None? then None else At(child.value, path[1..])
  }

  /** The path ends at a leaf, or at a subtree the depth limit cuts off. */
  predicate IsEnd(value: Json, path: seq<string>, levels: nat) {
    && |path| <= levels && At(value, path).Some?
    && (At(value, path).value.Leaf? || |path| == levels)
  }

  function NameOf(prefix: string, path: seq<string>, separator: string): string
    decreases |path|
  {
    if path == [] then prefix else NameOf(prefix + separator + path[0], path[1..], separator)
  }

  lemma NameOfStep(prefix: string, key: string, path: seq<string>, separator: string)
    ensures NameOf(prefix, [key] + path, separator) == NameOf(prefix + separator + key, path, separator)
  {
    assert ([key] + path)[1..] == path;
  }

  // --- the traversal -----------------------------------------------------------------------------

  /** Every value the traversal assigns, with the name it is assigned to. */
  function Entries(value: Json, prefix: string, separator: string, levels: nat): seq<Entry>
    decreases value
  {
    if value.Object? && levels > 0 then FieldEntries(value.fields, prefix, separator, levels - 1)
    else [Entry(prefix, value)]
  }

  function FieldEntries(fields: Fields, prefix: string, separator: string, levels: nat): seq<Entry>
    decreases fields
  {
    if fields.NoField? then []
    else Entries(fields.value, prefix + separator + fields.key, separator, levels)
         + FieldEntries(fields.rest, prefix, separator, levels)
  }

  lemma Regroup<T>(a: seq<T>, b: seq<T>, c: seq<T>)
    ensures a + (b + c) == a + b + c
  {
  }

  /** _flatten_value: recursion over nested objects, with a loop over the items of each. */
  method FlattenValue(value: Json, prefix: string, separator: string, depth: nat, maxDepth: nat, out: seq<Entry>)
    returns (flat: seq<Entry>)
    requires depth <= maxDepth
    ensures flat == PutAll(out, Entries(value, prefix, separator, maxDepth - depth))
    decreases value
  {
    flat := out;
    if value.Object? && depth < maxDepth {
      hide Put, PutAll;
      var items, levels := value.fields, maxDepth - depth - 1;
      ghost var done: seq<Entry> := [];
      while items.Field?
        invariant items == value.fields || items < value.fields
        invariant flat == PutAll(out, done)
        invariant done + FieldEntries(items, prefix, separator, levels)
            == FieldEntries(value.fields, prefix, separator, levels)
        decreases items
      {
        ghost var added := Entries(items.value, prefix + separator + items.key, separator, levels);
        flat := FlattenValue(items.value, prefix + separator + items.key, separator, depth + 1, maxDepth, flat);
        PutAllAgain(out, done, added);
        Regroup(done, added, FieldEntries(items.rest, prefix, separator, levels));
        done, items := done + added, items.rest;
      }
      assert done + [] == done;
      assert FieldEntries(items, prefix, separator, levels) == [];
    } else {
      var entries := [Entry(prefix, value)];
      assert entries[..0] == [] && PutAll(out, []) == out;
      flat := Put(out, Entry(prefix, value));
      assert PutAll(out, entries) == Put(out, Entry(prefix, value));
    }
  }

  // --- one entry per value -----------------------------------------------------------------------

  predicate DistinctNames(entries: seq<Entry>) {
    forall i, j | 0 <= i < j < |entries| :: entries[i].name != entries[j].name
  }

  predicate Has(entries: seq<Entry>, name: string) {
    exists i | 0 <= i < |entries| :: entries[i].name == name
  }

  lemma HasFirst(entries: seq<Entry>, name: string)
    requires entries != []
    ensures Has(entries, name) <==> entries[0].name == name || Has(entries[1..], name)
  {
    assert forall i | 1 <= i < |entries| :: entries[1..][i - 1] == entries[i];
  }

  /** A new name is added at the end; a known one only gets another value. */
  lemma {:induction false} PutNames(out: seq<Entry>, entry: Entry, name: string)
    ensures Has(Put(out, entry), name) <==> Has(out, name) || name == entry.name
    ensures !Has(out, entry.name) ==> Put(out, entry) == out + [entry]
    ensures Has(out, entry.name) ==> |Put(out, entry)| == |out|
  {
    if out == [] {
      assert [entry][0].name == entry.name;
    } else {
      HasFirst(out, name);
      HasFirst(out, entry.name);
      HasFirst(Put(out, entry), name);
      if out[0].name != entry.name {
        PutNames(out[1..], entry, name);
      }
    }
  }

  lemma {:induction false} PutAllNames(entries: seq<Entry>, name: string)
    ensures Has(PutAll([], entries), name) <==> Has(entries, name)
    ensures |PutAll([], entries)| <= |entries|
  {
    if entries != [] {
      var last := |entries| - 1;
      PutAllNames(entries[..last], name);
      PutNames(PutAll([], entries[..last]), entries[last], name);
      assert forall i | 0 <= i < last :: entries[..last][i] == entries[i];
    }
  }

  lemma DistinctWithLast(entries: seq<Entry>)
    requires entries != []
    ensures var last := |entries| - 1;
            DistinctNames(entries) <==> DistinctNames(entries[..last]) && !Has(entries[..last], entries[last].name)
  {
    var last := |entries| - 1;
    assert entries == entries[..last] + [entries[last]];
  }

  /** A dict keeps all assignments exactly when no two of them have the same name. */
  lemma {:induction false} AllKeptIffNamesDistinct(entries: seq<Entry>)
    ensures DistinctNames(entries) <==> PutAll([], entries) == entries
    ensures !DistinctNames(entries) ==> |PutAll([], entries)| < |entries|
  {
    if entries != [] {
      var front, last := entries[..|entries| - 1], entries[|entries| - 1];
      var before := PutAll([], front);
      AllKeptIffNamesDistinct(front);
      PutAllNames(front, last.name);
      PutNames(before, last, "");
      DistinctWithLast(entries);
      assert PutAll([], entries) == Put(before, last);
      hide Put, PutAll, DistinctNames, Has;
      assert entries == front + [last];
      if DistinctNames(front) && !Has(front, last.name) {
        assert Put(before, last) == entries;
      } else {
        assert |Put(before, last)| < |entries|;
      }
    }
  }

  // --- paths and their ends ----------------------------------------------------------------------

  function Prepend(key: string, paths: seq<seq<string>>): seq<seq<string>> {
    seq(|paths|, i requires 0 <= i < |paths| => [key] + paths[i])
  }

  /** The paths that end at a leaf or a cut-off subtree, in the order of the traversal. */
  function Ends(value: Json, levels: nat): seq<seq<string>>
    decreases value
  {
    if value.Object? && levels > 0 then FieldEnds(value.fields, levels - 1) else [[]]
  }

  function FieldEnds(fields: Fields, levels: nat): seq<seq<string>>
    decreases fields
  {
    if fields.NoField? then []
    else Prepend(fields.key, Ends(fields.value, levels)) + FieldEnds(fields.rest, levels)
  }

  /** JSON objects do not repeat a key. */
  predicate WellFormed(value: Json) {
    value.Leaf? || FieldsWellFormed(value.fields)
  }

  predicate FieldsWellFormed(fields: Fields) {
    fields.NoField? || (WellFormed(fields.value) && Child(fields.rest, fields.key).None?
        && FieldsWellFormed(fields.rest))
  }

  predicate NoRepeats<T(==)>(items: seq<T>) {
    forall i, j | 0 <= i < j < |items| :: items[i] != items[j]
  }

  /** A path from the fields of an object. */
  predicate IsFieldEnd(fields: Fields, path: seq<string>, levels: nat) {
    && path != [] && Child(fields, path[0]).Some?
    && IsEnd(Child(fields, path[0]).value, path[1..], levels)
  }

  /** The list holds exactly the paths that end somewhere, each once. */
  lemma {:induction false} EndsAreThose(value: Json, levels: nat)
    requires WellFormed(value)
    ensures NoRepeats(Ends(value, levels)) && forall path :: path in Ends(value, levels) <==> IsEnd(value, path, levels)
    decreases value
  {
    if value.Object? && levels > 0 {
      FieldEndsAreThose(value.fields, levels - 1);
      forall path ensures IsEnd(value, path, levels) <==> IsFieldEnd(value.fields, path, levels - 1) {}
    }
  }

  lemma {:induction false} FieldEndsAreThose(fields: Fields, levels: nat)
    requires FieldsWellFormed(fields)
    ensures NoRepeats(FieldEnds(fields, levels))
    ensures forall path :: path in FieldEnds(fields, levels) <==> IsFieldEnd(fields, path, levels)
    decreases fields
  {
    if fields.Field? {
      var inner, later := Ends(fields.value, levels), FieldEnds(fields.rest, levels);
      EndsAreThose(fields.value, levels);
      FieldEndsAreThose(fields.rest, levels);
      InPrepend(fields.key, inner);
      hide Ends, FieldEnds, IsEnd, WellFormed, FieldsWellFormed, Prepend;
      forall path ensures IsFieldEnd(fields, path, levels) <==> path in Prepend(fields.key, inner) || path in later {
        if path != [] && path[0] == fields.key {
          assert !IsFieldEnd(fields.rest, path, levels);
        }
      }
      forall i, j | 0 <= i < |Prepend(fields.key, inner)| && 0 <= j < |later|
        ensures Prepend(fields.key, inner)[i] != later[j]
      {
        assert later[j] in later && Prepend(fields.key, inner)[i] in Prepend(fields.key, inner);
      }
    }
  }

  lemma InPrepend(key: string, paths: seq<seq<string>>)
    ensures |Prepend(key, paths)| == |paths| && (NoRepeats(paths) ==> NoRepeats(Prepend(key, paths)))
    ensures forall path :: path in Prepend(key, paths) <==> path != [] && path[0] == key && path[1..] in paths
  {
    var all := Prepend(key, paths);
    forall i | 0 <= i < |paths| ensures all[i][0] == key && all[i][1..] == paths[i] {}
    forall path | path != [] && path[0] == key && path[1..] in paths ensures path in all {
      var i :| 0 <= i < |paths| && paths[i] == path[1..];
      assert all[i] == path;
    }
  }

  function EntryOf(value: Json, prefix: string, path: seq<string>, separator: string): Entry
    requires At(value, path).Some?
  {
    Entry(NameOf(prefix, path, separator), At(value, path).value)
  }

  function FieldEntryOf(fields: Fields, prefix: string, path: seq<string>, separator: string, levels: nat): Entry
    requires IsFieldEnd(fields, path, levels)
  {
    EntryOf(Child(fields, path[0]).value, prefix + separator + path[0], path[1..], separator)
  }

  /** The assignments follow the ends one by one: each is the value its path ends at, under the path's name. */
  lemma {:induction false} EntriesFollowEnds(value: Json, prefix: string, separator: string, levels: nat)
    requires WellFormed(value)
    ensures var ends, entries := Ends(value, levels), Entries(value, prefix, separator, levels);
            && |entries| == |ends|
            && forall i | 0 <= i < |ends| ::
                 IsEnd(value, ends[i], levels) && entries[i] == EntryOf(value, prefix, ends[i], separator)
    decreases value
  {
    if value.Object? && levels > 0 {
      FieldEntriesFollowEnds(value.fields, prefix, separator, levels - 1);
      var ends := Ends(value, levels);
      forall i | 0 <= i < |ends|
        ensures IsEnd(value, ends[i], levels) && Entries(value, prefix, separator, levels)[i]
            == EntryOf(value, prefix, ends[i], separator)
      {
        assert IsFieldEnd(value.fields, ends[i], levels - 1);
      }
    }
  }

  lemma {:induction false} FieldEntriesFollowEnds(fields: Fields, prefix: string, separator: string, levels: nat)
    requires FieldsWellFormed(fields)
    ensures var ends, entries := FieldEnds(fields, levels), FieldEntries(fields, prefix, separator, levels);
            && |entries| == |ends|
            && forall i | 0 <= i < |ends| ::
                 && IsFieldEnd(fields, ends[i], levels)
                 && entries[i] == FieldEntryOf(fields, prefix, ends[i], separator, levels)
    decreases fields
  {
    if fields.Field? {
      EntriesFollowEnds(fields.value, prefix + separator + fields.key, separator, levels);
      FieldEntriesFollowEnds(fields.rest, prefix, separator, levels);
      var inner, later := Ends(fields.value, levels), FieldEnds(fields.rest, levels);
      var first := Prepend(fields.key, inner);
      forall i | 0 <= i < |inner|
        ensures IsFieldEnd(fields, first[i], levels)
        ensures Entries(fields.value, prefix + separator + fields.key, separator, levels)[i]
             == FieldEntryOf(fields, prefix, first[i], separator, levels)
      {
        assert first[i][0] == fields.key && first[i][1..] == inner[i];
      }
      hide Entries, FieldEntries, Ends, FieldEnds, NameOf, At, WellFormed;
      forall i | 0 <= i < |later|
        ensures IsFieldEnd(fields, later[i], levels)
        ensures FieldEntryOf(fields, prefix, later[i], separator, levels)
             == FieldEntryOf(fields.rest, prefix, later[i], separator, levels)
      {
        assert IsFieldEnd(fields.rest, later[i], levels);
      }
    }
  }

  /** The flat record of a value. */
  function Flat(value: Json, column: string, separator: string, maxDepth: nat): seq<Entry> {
    PutAll([], Entries(value, column, separator, maxDepth))
  }

  /** No two ends have the same name. */
  ghost predicate NamesApart(value: Json, prefix: string, separator: string, levels: nat) {
    forall p, q | IsEnd(value, p, levels) && IsEnd(value, q, levels)
        && NameOf(prefix, p, separator) == NameOf(prefix, q, separator) :: p == q
  }

  lemma ApartIffDistinct(value: Json, prefix: string, separator: string, levels: nat)
    requires WellFormed(value)
    ensures NamesApart(value, prefix, separator, levels) <==> DistinctNames(Entries(value, prefix, separator, levels))
  {
    EndsAreThose(value, levels);
    EntriesFollowEnds(value, prefix, separator, levels);
    hide Ends, Entries, IsEnd, WellFormed, NameOf, At;
    var ends, entries := Ends(value, levels), Entries(value, prefix, separator, levels);
    if NamesApart(value, prefix, separator, levels) {
      forall i, j | 0 <= i < j < |entries| ensures entries[i].name != entries[j].name {
        assert IsEnd(value, ends[i], levels) && IsEnd(value, ends[j], levels);
      }
    }
    if DistinctNames(entries) {
      forall p, q | IsEnd(value, p, levels) && IsEnd(value, q, levels)
          && NameOf(prefix, p, separator) == NameOf(prefix, q, separator)
        ensures p == q
      {
        var i :| 0 <= i < |ends| && ends[i] == p;
        var j :| 0 <= j < |ends| && ends[j] == q;
        assert entries[i].name == entries[j].name;
      }
    }
  }

  /** The flat record has one entry for each end of a path exactly when no two ends have the same name; then it
      is their values under their names, in order. Otherwise it has fewer entries than there are ends. */
  lemma NothingLostIffNamesApart(value: Json, column: string, separator: string, maxDepth: nat)
    requires WellFormed(value)
    ensures var flat, ends := Flat(value, column, separator, maxDepth), Ends(value, maxDepth);
            && |flat| <= |ends|
            && (|flat| == |ends| <==> NamesApart(value, column, separator, maxDepth))
            && (|flat| == |ends| ==>
                  forall i | 0 <= i < |ends| ::
                    IsEnd(value, ends[i], maxDepth) && flat[i] == EntryOf(value, column, ends[i], separator))
  {
    var entries := Entries(value, column, separator, maxDepth);
    EntriesFollowEnds(value, column, separator, maxDepth);
    ApartIffDistinct(value, column, separator, maxDepth);
    AllKeptIffNamesDistinct(entries);
    PutAllNames(entries, "");
  }

  // --- what a dict says about a name -------------------------------------------------------------

  /** record.get(name) */
  function Lookup(flat: seq<Entry>, name: string): Json {
    if flat == [] then Leaf(Null) else if flat[0].name == name then flat[0].value else Lookup(flat[1..], name)
  }

  lemma {:induction false} LookupMisses(flat: seq<Entry>, name: string)
    requires !Has(flat, name)
    ensures Lookup(flat, name) == Leaf(Null)
  {
    if flat != [] {
      HasFirst(flat, name);
      LookupMisses(flat[1..], name);
    }
  }

  lemma {:induction false} LookupAfterPut(out: seq<Entry>, entry: Entry, name: string)
    ensures Lookup(Put(out, entry), name) == if name == entry.name then entry.value else Lookup(out, name)
  {
    if out != [] && out[0].name != entry.name {
      LookupAfterPut(out[1..], entry, name);
    }
  }

  /** Of several assignments to a name the last one is found. */
  lemma {:induction false} LastAssignmentIsFound(entries: seq<Entry>, i: nat)
    requires i < |entries| && forall j | i < j < |entries| :: entries[j].name != entries[i].name
    ensures Lookup(PutAll([], entries), entries[i].name) == entries[i].value
  {
    var last := |entries| - 1;
    LookupAfterPut(PutAll([], entries[..last]), entries[last], entries[i].name);
    if i < last {
      LastAssignmentIsFound(entries[..last], i);
    }
  }

  /** Under a shared name the flat record holds the value of the last end. */
  lemma LastEndIsFound(value: Json, column: string, separator: string, maxDepth: nat, i: nat)
    requires WellFormed(value) && i < |Ends(value, maxDepth)|
    requires IsLastOfName(value, column, separator, maxDepth, i)
    ensures var path, flat := Ends(value, maxDepth)[i], Flat(value, column, separator, maxDepth);
            && IsEnd(value, path, maxDepth)
            && Has(flat, NameOf(column, path, separator))
            && Lookup(flat, NameOf(column, path, separator)) == At(value, path).value
  {
    EntriesFollowEnds(value, column, separator, maxDepth);
    hide Ends, Entries, NameOf, At, IsEnd, WellFormed;
    var entries := Entries(value, column, separator, maxDepth);
    LastAssignmentIsFound(entries, i);
    PutAllNames(entries, entries[i].name);
  }

  /** No later end of the value has the same name. */
  predicate IsLastOfName(value: Json, column: string, separator: string, maxDepth: nat, i: nat)
    requires i < |Ends(value, maxDepth)|
  {
    var ends := Ends(value, maxDepth);
    forall j | i < j < |ends| :: NameOf(column, ends[j], separator) != NameOf(column, ends[i], separator)
  }
}
