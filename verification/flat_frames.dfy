/** The flatten transform on frames: each listed column is replaced by one column per generated name. */
module FlatFrames {
  import opened Frames
  import opened Flattening

  datatype Column = Column(name: string, cells: seq<Json>)

  function AddNames(names: seq<string>, entries: seq<Entry>): seq<string> {
    if entries == [] then names
    else
      var earlier := AddNames(names, entries[..|entries| - 1]);
      var name := entries[|entries| - 1].name;
      if name in earlier then earlier else earlier + [name]
  }

  /** The names of all records, each once, in order of first appearance. */
  function NamesIn(records: seq<seq<Entry>>): seq<string> {
    if records == [] then [] else AddNames(NamesIn(records[..|records| - 1]), records[|records| - 1])
  }

  lemma {:induction false} AddedNames(names: seq<string>, entries: seq<Entry>)
    requires NoRepeats(names)
    ensures NoRepeats(AddNames(names, entries)) && names <= AddNames(names, entries)
    ensures forall n :: n in AddNames(names, entries) <==> n in names || Has(entries, n)
  {
    if entries != [] {
      var last := |entries| - 1;
      AddedNames(names, entries[..last]);
      forall n ensures Has(entries, n) <==> Has(entries[..last], n) || entries[last].name == n {
        assert forall i | 0 <= i < last :: entries[..last][i] == entries[i];
      }
    }
  }

  lemma {:induction false} NamesAreThose(records: seq<seq<Entry>>)
    ensures NoRepeats(NamesIn(records))
    ensures forall n :: n in NamesIn(records) <==> exists r | 0 <= r < |records| :: Has(records[r], n)
  {
    if records != [] {
      var last := |records| - 1;
      NamesAreThose(records[..last]);
      AddedNames(NamesIn(records[..last]), records[last]);
      assert forall r | 0 <= r < last :: records[..last][r] == records[r];
    }
  }

  /** All names the records assign, record after record. */
  function AllNamesOf(records: seq<seq<Entry>>): seq<string> {
    if records == [] then []
    else AllNamesOf(records[..|records| - 1]) + EntryNames(records[|records| - 1])
  }

  function EntryNames(entries: seq<Entry>): seq<string> {
    seq(|entries|, i requires 0 <= i < |entries| => entries[i].name)
  }

  /** The names of `all`, each where it appears first. */
  function Firsts(all: seq<string>): seq<string> {
    if all == [] then []
    else
      var before, last := all[..|all| - 1], all[|all| - 1];
      if last in before then Firsts(before) else Firsts(before) + [last]
  }

  lemma {:induction false} FirstsAreMembers(all: seq<string>)
    ensures forall n :: n in Firsts(all) <==> n in all
  {
    if all != [] {
      FirstsAreMembers(all[..|all| - 1]);
      assert all == all[..|all| - 1] + [all[|all| - 1]];
    }
  }

  lemma {:induction false} AddedInOrder(all: seq<string>, entries: seq<Entry>)
    ensures AddNames(Firsts(all), entries) == Firsts(all + EntryNames(entries))
  {
    if entries == [] {
      assert all + EntryNames(entries) == all;
    } else {
      var front, name := entries[..|entries| - 1], entries[|entries| - 1].name;
      AddedInOrder(all, front);
      var before := all + EntryNames(front);
      assert all + EntryNames(entries) == before + [name];
      assert (before + [name])[..|before|] == before;
      FirstsAreMembers(before);
    }
  }

  /** The generated columns come in the order in which their names first appear, row by row. */
  lemma {:induction false} NamesInOrder(records: seq<seq<Entry>>)
    ensures NamesIn(records) == Firsts(AllNamesOf(records))
  {
    if records != [] {
      NamesInOrder(records[..|records| - 1]);
      AddedInOrder(AllNamesOf(records[..|records| - 1]), records[|records| - 1]);
    }
  }

  /** One row of the column: objects are flattened, anything else gives an empty record. */
  function RecordOf(cell: Json, column: string, separator: string, maxDepth: nat): seq<Entry> {
    if cell.Object? then Flat(cell, column, separator, maxDepth) else []
  }

  function RecordsOf(column: Column, separator: string, maxDepth: nat): seq<seq<Entry>> {
    seq(|column.cells|, r requires 0 <= r < |column.cells| => RecordOf(column.cells[r], column.name, separator,
        maxDepth))
  }

  function Generated(name: string, records: seq<seq<Entry>>): Column {
    Column(name, seq(|records|, r requires 0 <= r < |records| => Lookup(records[r], name)))
  }

  function Expanded(names: seq<string>, records: seq<seq<Entry>>): seq<Column> {
    seq(|names|, i requires 0 <= i < |names| => Generated(names[i], records))
  }

  predicate HasColumn(frame: seq<Column>, name: string) {
    exists i | 0 <= i < |frame| :: frame[i].name == name
  }

  /** Flatten every cell of the column, collecting the generated names on the way. */
  method FlattenCells(column: Column, separator: string, maxDepth: nat)
    returns (records: seq<seq<Entry>>, names: seq<string>)
    ensures records == RecordsOf(column, separator, maxDepth) && names == NamesIn(records)
  {
    hide Put, Entries, IsEnd;
    records, names := [], [];
    ghost var all := RecordsOf(column, separator, maxDepth);
    for r := 0 to |column.cells|
      invariant records == all[..r] && names == NamesIn(records)
    {
      var flat := [];
      if column.cells[r].Object? {
        flat := FlattenValue(column.cells[r], column.name, separator, 0, maxDepth, []);
      }
      assert (records + [flat])[..r] == records;
      records, names := records + [flat], AddNames(names, flat);
    }
    assert all[..|all|] == all;
  }

  /** Insert the generated columns one by one where the original column was. */
  method InsertColumns(front: seq<Column>, back: seq<Column>, names: seq<string>, records: seq<seq<Entry>>)
    returns (out: seq<Column>)
    ensures out == front + Expanded(names, records) + back
  {
    hide Generated;
    ghost var expanded := Expanded(names, records);
    out := front + back;
    assert expanded[..0] == [] && front + [] == front;
    for offset := 0 to |names|
      invariant out == front + expanded[..offset] + back
    {
      var at := |front| + offset;
      assert out[..at] == front + expanded[..offset] && out[at..] == back;
      out := out[..at] + [Generated(names[offset], records)] + out[at..];
      assert expanded[..offset + 1] == expanded[..offset] + [expanded[offset]];
      assert front + expanded[..offset] + [expanded[offset]] == front + expanded[..offset + 1];
    }
    assert expanded[..|names|] == expanded;
  }

  /** The column at `position` is replaced, in place, by one column per generated name; every other column
      keeps its place in the order. None when a generated name is already taken. */
  method ExpandColumn(frame: seq<Column>, position: nat, separator: string, maxDepth: nat)
    returns (result: Option<seq<Column>>)
    requires position < |frame|
    ensures var records := RecordsOf(frame[position], separator, maxDepth);
            && (result.None? <==>
                  exists n | n in NamesIn(records) :: n != frame[position].name && HasColumn(frame, n))
            && (result.Some? ==>
                  result.value == frame[..position] + Expanded(NamesIn(records), records) + frame[position + 1..])
  {
    var records, names := FlattenCells(frame[position], separator, maxDepth);
    if exists n | n in names :: n != frame[position].name && HasColumn(frame, n) {
      return None;
    }
    var out := InsertColumns(frame[..position], frame[position + 1..], names, records);
    result := Some(out);
  }

  // --- where the values end up -------------------------------------------------------------------

  /** The value a path of a row's object ends at is found in the generated column of the path's name, if no
      later path of that object has the same name. */
  lemma ExpandedValues(column: Column, separator: string, maxDepth: nat, r: nat, i: nat)
    requires r < |column.cells| && column.cells[r].Object? && WellFormed(column.cells[r])
    requires i < |Ends(column.cells[r], maxDepth)|
    requires IsLastOfName(column.cells[r], column.name, separator, maxDepth, i)
    ensures var records := RecordsOf(column, separator, maxDepth);
            var path := Ends(column.cells[r], maxDepth)[i];
            var name := NameOf(column.name, path, separator);
            && IsEnd(column.cells[r], path, maxDepth)
            && name in NamesIn(records)
            && Generated(name, records).cells[r] == At(column.cells[r], path).value
  {
    var records := RecordsOf(column, separator, maxDepth);
    LastEndIsFound(column.cells[r], column.name, separator, maxDepth, i);
    hide Ends, NameOf, At, IsEnd, WellFormed, NamesIn, Lookup, Flat;
    var name := NameOf(column.name, Ends(column.cells[r], maxDepth)[i], separator);
    assert Has(records[r], name);
    NamesAreThose(records);
  }

  // --- several columns ---------------------------------------------------------------------------

  datatype Refusal = MissingColumns | Clash(column: string) | Gone(column: string)

  datatype Outcome = Frame(columns: seq<Column>) | Refused(refusal: Refusal)

  function Titles(frame: seq<Column>): seq<string> {
    seq(|frame|, i requires 0 <= i < |frame| => frame[i].name)
  }

  /** list(out.columns).index(name) */
  function IndexOf(frame: seq<Column>, name: string): (i: nat)
    requires HasColumn(frame, name)
    ensures i < |frame| && frame[i].name == name
  {
    if frame[0].name == name then 0
    else
      assert forall i | 1 <= i < |frame| :: frame[1..][i - 1] == frame[i];
      IndexOf(frame[1..], name) + 1
  }

  /** What one round of the loop does to the frame. */
  function ExpandOne(frame: seq<Column>, name: string, separator: string, maxDepth: nat): Outcome {
    if !HasColumn(frame, name) then Refused(Gone(name))
    else
      var at := IndexOf(frame, name);
      var records := RecordsOf(frame[at], separator, maxDepth);
      if exists n | n in NamesIn(records) :: n != name && HasColumn(frame, n) then Refused(Clash(name))
      else Frame(frame[..at] + Expanded(NamesIn(records), records) + frame[at + 1..])
  }

  /** The first n listed columns, one after the other, each over the frame the ones before it left. */
  function ExpandEach(frame: seq<Column>, listed: seq<string>, n: nat, separator: string, maxDepth: nat): Outcome
    requires n <= |listed|
  {
    if n == 0 then Frame(frame)
    else
      var before := ExpandEach(frame, listed, n - 1, separator, maxDepth);
      if before.Refused? then before else ExpandOne(before.columns, listed[n - 1], separator, maxDepth)
  }

  predicate HoldsObject(cells: seq<Json>) {
    exists i | 0 <= i < |cells| :: cells[i].Object?
  }

  /** The columns taken when none are listed. */
  function ObjectColumns(frame: seq<Column>): seq<string> {
    if frame == [] then []
    else (if HoldsObject(frame[0].cells) then [frame[0].name] else []) + ObjectColumns(frame[1..])
  }

  function Chosen(frame: seq<Column>, listed: seq<string>): seq<string> {
    if listed != [] then listed else ObjectColumns(frame)
  }

  method FlattenFrame(frame: seq<Column>, listed: seq<string>, separator: string, maxDepth: nat)
    returns (outcome: Outcome)
    requires NoRepeats(Titles(frame))
    ensures var columns := Chosen(frame, listed);
            outcome == if exists n | n in columns :: !HasColumn(frame, n) then Refused(MissingColumns)
                       else ExpandEach(frame, columns, |columns|, separator, maxDepth)
  {
    hide HasColumn, Chosen, ExpandOne;
    var columns := Chosen(frame, listed);
    if exists n | n in columns :: !HasColumn(frame, n) { return Refused(MissingColumns); }
    outcome := Frame(frame);
    for i := 0 to |columns|
      invariant outcome.Frame? && outcome == ExpandEach(frame, columns, i, separator, maxDepth)
    {
      outcome := ExpandNext(outcome.columns, columns[i], separator, maxDepth);
      if outcome.Refused? {
        RefusalStays(frame, columns, i + 1, |columns|, separator, maxDepth);
        return;
      }
    }
  }

  /** One round of the loop. */
  method ExpandNext(frame: seq<Column>, name: string, separator: string, maxDepth: nat) returns (outcome: Outcome)
    ensures outcome == ExpandOne(frame, name, separator, maxDepth)
  {
    if !HasColumn(frame, name) { return Refused(Gone(name)); }
    hide HasColumn, RecordsOf, NamesIn, Expanded;
    var result := ExpandColumn(frame, IndexOf(frame, name), separator, maxDepth);
    outcome := if result.None? then Refused(Clash(name)) else Frame(result.value);
  }

  lemma {:induction false} RefusalStays(frame: seq<Column>, listed: seq<string>, i: nat, n: nat, separator: string,
        maxDepth: nat)
    requires i <= n <= |listed| && ExpandEach(frame, listed, i, separator, maxDepth).Refused?
    ensures ExpandEach(frame, listed, n, separator, maxDepth) == ExpandEach(frame, listed, i, separator, maxDepth)
  {
    hide ExpandOne;
    if i < n {
      RefusalStays(frame, listed, i, n - 1, separator, maxDepth);
    }
  }

  // --- what is left after all of them ------------------------------------------------------------

  function GeneratedFrom(origin: Column, separator: string, maxDepth: nat): seq<Column> {
    var records := RecordsOf(origin, separator, maxDepth);
    Expanded(NamesIn(records), records)
  }

  /** The columns with one of the names, in order. */
  function Only(frame: seq<Column>, names: set<string>): seq<Column> {
    if frame == [] then []
    else (if frame[0].name in names then [frame[0]] else []) + Only(frame[1..], names)
  }

  /** The names of the columns that are not expanded. */
  function Unlisted(frame: seq<Column>, listed: seq<string>): set<string> {
    set n | n in Titles(frame) && n !in listed
  }

  /** Titles do not repeat, and each listed one is there, listed once. */
  ghost predicate IsSelection(frame: seq<Column>, listed: seq<string>) {
    NoRepeats(Titles(frame)) && NoRepeats(listed) && forall m | m in listed :: m in Titles(frame)
  }

  /** The frame after the first n listed columns of `frame` were expanded. */
  ghost predicate AfterSome(frame: seq<Column>, out: seq<Column>, listed: seq<string>, n: nat, separator: string,
                            maxDepth: nat)
    requires n <= |listed|
  {
    && NoRepeats(Titles(out))
    && (forall x | x in frame && x.name !in listed[..n] :: x in out)
    && (forall c, g | c in frame && c.name in listed[..n] && g in GeneratedFrom(c, separator, maxDepth) ::
          g in out && g.name !in listed[n..])
    && (forall x | x in out :: IsLeft(frame, x, listed[..n], separator, maxDepth))
  }

  /** An untouched column, or one generated from an expanded column. */
  ghost predicate IsLeft(frame: seq<Column>, x: Column, expanded: seq<string>, separator: string, maxDepth: nat) {
    || (x in frame && x.name !in expanded)
    || exists c :: c in frame && c.name in expanded && x in GeneratedFrom(c, separator, maxDepth)
  }

  lemma OneOfATitle(frame: seq<Column>, x: Column, y: Column)
    requires NoRepeats(Titles(frame)) && x in frame && y in frame && x.name == y.name
    ensures x == y
  {
    var i :| 0 <= i < |frame| && frame[i] == x;
    var j :| 0 <= j < |frame| && frame[j] == y;
    assert Titles(frame)[i] == Titles(frame)[j];
  }

  lemma InTitles(frame: seq<Column>, name: string)
    ensures name in Titles(frame) <==> HasColumn(frame, name)
  {
    if HasColumn(frame, name) {
      var i :| 0 <= i < |frame| && frame[i].name == name;
      assert Titles(frame)[i] == name;
    }
  }

  lemma GeneratedAre(names: seq<string>, records: seq<seq<Entry>>, g: Column)
    ensures Titles(Expanded(names, records)) == names
    ensures g in Expanded(names, records) <==> g.name in names && g == Generated(g.name, records)
  {
    var expanded := Expanded(names, records);
    if g.name in names && g == Generated(g.name, records) {
      var i :| 0 <= i < |names| && names[i] == g.name;
      assert expanded[i] == g;
    }
  }

  lemma GeneratedTitles(c: Column, separator: string, maxDepth: nat)
    ensures Titles(GeneratedFrom(c, separator, maxDepth)) == NamesIn(RecordsOf(c, separator, maxDepth))
    ensures NoRepeats(NamesIn(RecordsOf(c, separator, maxDepth)))
    ensures forall g | g in GeneratedFrom(c, separator, maxDepth) ::
              g.name in NamesIn(RecordsOf(c, separator, maxDepth))
  {
    var records := RecordsOf(c, separator, maxDepth);
    NamesAreThose(records);
    GeneratedAre(NamesIn(records), records, c);
    hide NamesIn, RecordsOf, Expanded;
    forall g | g in GeneratedFrom(c, separator, maxDepth) ensures g.name in NamesIn(records) {
      GeneratedAre(NamesIn(records), records, g);
    }
  }

  lemma RoundShape(frame: seq<Column>, name: string, separator: string, maxDepth: nat, next: seq<Column>)
    returns (front: seq<Column>, c: Column, back: seq<Column>)
    requires ExpandOne(frame, name, separator, maxDepth) == Frame(next)
    ensures frame == front + [c] + back && c.name == name
    ensures next == front + GeneratedFrom(c, separator, maxDepth) + back
    ensures forall n | n in NamesIn(RecordsOf(c, separator, maxDepth)) :: n == name || n !in Titles(frame)
  {
    hide NamesIn, RecordsOf, Expanded, HasColumn;
    var at := IndexOf(frame, name);
    hide IndexOf;
    front, c, back := frame[..at], frame[at], frame[at + 1..];
    forall n | n in NamesIn(RecordsOf(c, separator, maxDepth)) ensures n == name || n !in Titles(frame) {
      InTitles(frame, n);
    }
  }

  /** Replacing one title by new ones repeats none. */
  lemma ReplacedTitles(front: seq<string>, title: string, back: seq<string>, added: seq<string>)
    requires NoRepeats(front + [title] + back) && NoRepeats(added)
    requires forall n | n in added :: n == title || n !in front + [title] + back
    ensures NoRepeats(front + added + back)
  {
    var was, now := front + [title] + back, front + added + back;
    assert was[|front|] == title;
    forall i | 0 <= i < |front| ensures now[i] == was[i] && now[i] != title && now[i] !in added {
      assert was[i] == front[i] && front[i] in was;
    }
    var after := |front| + |added|;
    forall j | after <= j < |now|
      ensures now[j] == was[j - |added| + 1] && now[j] != title && now[j] !in added
    {
      assert was[j - |added| + 1] in was;
    }
    forall i | |front| <= i < after ensures now[i] == added[i - |front|] {}
  }

  /** The expanded column goes, its generated columns come, under titles no other column has. */
  ghost predicate Replaced(frame: seq<Column>, c: Column, separator: string, maxDepth: nat, next: seq<Column>) {
    && NoRepeats(Titles(next))
    && (forall x :: x in next <==> (x in frame && x.name != c.name) || x in GeneratedFrom(c, separator, maxDepth))
    && (forall g | g in GeneratedFrom(c, separator, maxDepth) :: g.name == c.name || g.name !in Titles(frame))
  }

  lemma OneRound(frame: seq<Column>, c: Column, separator: string, maxDepth: nat, next: seq<Column>)
    requires NoRepeats(Titles(frame)) && c in frame && ExpandOne(frame, c.name, separator, maxDepth) == Frame(next)
    ensures Replaced(frame, c, separator, maxDepth, next)
  {
    var front, d, back := RoundShape(frame, c.name, separator, maxDepth, next);
    OneOfATitle(frame, d, c);
    GeneratedTitles(c, separator, maxDepth);
    var added := GeneratedFrom(c, separator, maxDepth);
    hide GeneratedFrom, NamesIn, RecordsOf, ExpandOne;
    TitlesOfParts(front, [c], back);
    TitlesOfParts(front, added, back);
    assert Titles([c]) == [c.name];
    ReplacedTitles(Titles(front), c.name, Titles(back), Titles(added));
    forall x: Column | x in front + back ensures x.name != c.name {
      OthersHaveOtherTitles(front, c, back, x);
    }
    assert forall x: Column :: x in frame && x.name != c.name ==> x in front + back;
  }

  lemma TitlesOfParts(front: seq<Column>, middle: seq<Column>, back: seq<Column>)
    ensures Titles(front + middle + back) == Titles(front) + Titles(middle) + Titles(back)
  {
  }

  lemma OthersHaveOtherTitles(front: seq<Column>, c: Column, back: seq<Column>, x: Column)
    requires NoRepeats(Titles(front + [c] + back)) && x in front + back
    ensures x.name != c.name
  {
    var frame := front + [c] + back;
    var i :| 0 <= i < |front + back| && (front + back)[i] == x;
    assert Titles(frame)[|front|] == c.name;
    assert Titles(frame)[if i < |front| then i else i + 1] == x.name;
  }

  lemma {:induction false} OnlyOfParts(a: seq<Column>, b: seq<Column>, names: set<string>)
    ensures Only(a + b, names) == Only(a, names) + Only(b, names)
  {
    if a == [] {
      assert a + b == b;
    } else {
      var head := if a[0].name in names then [a[0]] else [];
      var rest := a[1..] + b;
      assert a + b == [a[0]] + rest;
      OnlyStep(a[0], rest, names);
      OnlyStep(a[0], a[1..], names);
      assert a == [a[0]] + a[1..];
      OnlyOfParts(a[1..], b, names);
      hide Only;
      Regroup(head, Only(a[1..], names), Only(b, names));
    }
  }

  lemma OnlyStep(first: Column, rest: seq<Column>, names: set<string>)
    ensures Only([first] + rest, names) == (if first.name in names then [first] else []) + Only(rest, names)
  {
    assert ([first] + rest)[1..] == rest;
  }

  lemma {:induction false} OnlyOfOthers(frame: seq<Column>, names: set<string>)
    requires forall x | x in frame :: x.name !in names
    ensures Only(frame, names) == []
  {
    if frame != [] { OnlyOfOthers(frame[1..], names); }
  }

  lemma OnlyAround(front: seq<Column>, middle: seq<Column>, back: seq<Column>, names: set<string>)
    requires forall x | x in middle :: x.name !in names
    ensures Only(front + middle + back, names) == Only(front, names) + Only(back, names)
  {
    OnlyOfParts(front + middle, back, names);
    OnlyOfParts(front, middle, names);
    OnlyOfOthers(middle, names);
  }

  /** One round leaves the other columns in their order. */
  lemma OneRoundKeepsOrder(frame: seq<Column>, name: string, separator: string, maxDepth: nat, next: seq<Column>,
                           names: set<string>)
    requires ExpandOne(frame, name, separator, maxDepth) == Frame(next)
    requires name !in names && forall n | n in names :: n in Titles(frame)
    ensures Only(next, names) == Only(frame, names)
  {
    var front, c, back := RoundShape(frame, name, separator, maxDepth, next);
    GeneratedTitles(c, separator, maxDepth);
    hide ExpandOne, GeneratedFrom, NamesIn, RecordsOf, Only;
    OnlyAround(front, [c], back, names);
    OnlyAround(front, GeneratedFrom(c, separator, maxDepth), back, names);
  }

  /** A column that is not yet expanded is in the frame. */
  lemma StillThere(frame: seq<Column>, out: seq<Column>, listed: seq<string>, n: nat, separator: string, maxDepth: nat,
                   name: string)
    requires n <= |listed| && AfterSome(frame, out, listed, n, separator, maxDepth)
    requires name in Titles(frame) && name !in listed[..n]
    ensures name in Titles(out)
  {
    var i :| 0 <= i < |Titles(frame)| && Titles(frame)[i] == name;
    var j :| 0 <= j < |out| && out[j] == frame[i];
    assert Titles(out)[j] == name;
  }

  /** Columns generated now are not listed later: those are all still there and would clash. */
  lemma GeneratedNotListed(frame: seq<Column>, out: seq<Column>, listed: seq<string>, n: nat, separator: string,
                           maxDepth: nat, c: Column, g: Column)
    requires IsSelection(frame, listed)
    requires n < |listed| && c.name == listed[n] && AfterSome(frame, out, listed, n, separator, maxDepth)
    requires g.name == c.name || g.name !in Titles(out)
    ensures g.name !in listed[n + 1..]
  {
    if g.name in listed[n + 1..] {
      var i :| 0 <= i < |listed[n + 1..]| && listed[n + 1..][i] == g.name;
      var later := n + 1 + i;
      assert listed[later] == g.name;
      assert listed[later] != listed[n] && forall m | 0 <= m < n :: listed[m] != listed[later];
      StillThere(frame, out, listed, n, separator, maxDepth, g.name);
    }
  }

  lemma LeftAfter(frame: seq<Column>, out: seq<Column>, listed: seq<string>, n: nat, separator: string, maxDepth: nat,
                  c: Column, next: seq<Column>, x: Column)
    requires n < |listed| && c in frame && x in next
    requires AfterSome(frame, out, listed, n, separator, maxDepth) && Replaced(out, c, separator, maxDepth, next)
    ensures IsLeft(frame, x, listed[..n] + [c.name], separator, maxDepth)
  {
    hide GeneratedFrom, NoRepeats, Titles;
    if x in out && x.name != c.name {
      assert IsLeft(frame, x, listed[..n], separator, maxDepth);
    } else {
      assert c.name in listed[..n] + [c.name];
    }
  }

  lemma GeneratedStays(frame: seq<Column>, out: seq<Column>, listed: seq<string>, n: nat, separator: string,
                       maxDepth: nat, c: Column, next: seq<Column>, d: Column, g: Column)
    requires IsSelection(frame, listed)
    requires n < |listed| && c in frame && c.name == listed[n]
    requires AfterSome(frame, out, listed, n, separator, maxDepth) && Replaced(out, c, separator, maxDepth, next)
    requires d in frame && d.name in listed[..n] + [c.name] && g in GeneratedFrom(d, separator, maxDepth)
    ensures g in next && g.name !in listed[n + 1..]
  {
    assert listed[n..] == [c.name] + listed[n + 1..];
    hide GeneratedFrom, RecordsOf;
    if d.name == c.name {
      OneOfATitle(frame, d, c);
      GeneratedNotListed(frame, out, listed, n, separator, maxDepth, c, g);
    } else {
      assert d.name in listed[..n];
    }
  }

  lemma OtherStays(frame: seq<Column>, out: seq<Column>, listed: seq<string>, n: nat, separator: string, maxDepth: nat,
                   c: Column, next: seq<Column>, x: Column)
    requires n < |listed| && c.name == listed[n] && x in frame && x.name !in listed[..n + 1]
    requires AfterSome(frame, out, listed, n, separator, maxDepth) && Replaced(out, c, separator, maxDepth, next)
    ensures x in next
  {
    hide GeneratedFrom, NoRepeats, Titles, IsLeft;
    assert listed[..n + 1] == listed[..n] + [c.name];
  }

  lemma NextRound(frame: seq<Column>, out: seq<Column>, listed: seq<string>, n: nat, separator: string, maxDepth: nat,
                  c: Column, next: seq<Column>)
    requires IsSelection(frame, listed)
    requires n < |listed| && c in frame && c.name == listed[n]
    requires AfterSome(frame, out, listed, n, separator, maxDepth) && Replaced(out, c, separator, maxDepth, next)
    ensures AfterSome(frame, next, listed, n + 1, separator, maxDepth)
  {
    assert NoRepeats(Titles(next));
    assert listed[..n + 1] == listed[..n] + [c.name];
    hide GeneratedFrom, NoRepeats, Titles, IsLeft, Replaced, IsSelection, AfterSome;
    forall d, g | d in frame && d.name in listed[..n + 1] && g in GeneratedFrom(d, separator, maxDepth)
      ensures g in next && g.name !in listed[n + 1..]
    {
      GeneratedStays(frame, out, listed, n, separator, maxDepth, c, next, d, g);
    }
    forall x | x in next ensures IsLeft(frame, x, listed[..n + 1], separator, maxDepth) {
      LeftAfter(frame, out, listed, n, separator, maxDepth, c, next, x);
    }
    forall x | x in frame && x.name !in listed[..n + 1] ensures x in next {
      OtherStays(frame, out, listed, n, separator, maxDepth, c, next, x);
    }
    IsAfterSome(frame, next, listed, n + 1, separator, maxDepth);
  }

  lemma IsAfterSome(frame: seq<Column>, out: seq<Column>, listed: seq<string>, n: nat, separator: string, maxDepth: nat)
    requires n <= |listed| && NoRepeats(Titles(out))
    requires forall x | x in frame && x.name !in listed[..n] :: x in out
    requires forall c, g | c in frame && c.name in listed[..n] && g in GeneratedFrom(c, separator, maxDepth) ::
               g in out && g.name !in listed[n..]
    requires forall x | x in out :: IsLeft(frame, x, listed[..n], separator, maxDepth)
    ensures AfterSome(frame, out, listed, n, separator, maxDepth)
  {
    hide GeneratedFrom, NoRepeats, Titles, IsLeft;
  }

  /** The next listed column is still the one of the frame at the start. */
  lemma Listed(frame: seq<Column>, out: seq<Column>, listed: seq<string>, n: nat, separator: string, maxDepth: nat)
    returns (c: Column)
    requires IsSelection(frame, listed) && n < |listed| && AfterSome(frame, out, listed, n, separator, maxDepth)
    ensures NoRepeats(Titles(out)) && HasColumn(out, listed[n]) && c in frame && c in out && c.name == listed[n]
  {
    assert listed[n] in listed;
    var at: nat :| at < |Titles(frame)| && Titles(frame)[at] == listed[n];
    c := frame[at];
    assert listed[n] !in listed[..n];
    var i :| 0 <= i < |out| && out[i] == c;
  }

  lemma RoundKeeps(frame: seq<Column>, out: seq<Column>, listed: seq<string>, n: nat, separator: string, maxDepth: nat,
                   next: seq<Column>)
    requires IsSelection(frame, listed)
    requires n < |listed| && AfterSome(frame, out, listed, n, separator, maxDepth)
    requires ExpandOne(out, listed[n], separator, maxDepth) == Frame(next)
    ensures AfterSome(frame, next, listed, n + 1, separator, maxDepth)
    ensures Only(next, Unlisted(frame, listed)) == Only(out, Unlisted(frame, listed))
  {
    var c := Listed(frame, out, listed, n, separator, maxDepth);
    hide ExpandOne, AfterSome, Replaced, Only, NoRepeats, IsSelection;
    OneRound(out, c, separator, maxDepth, next);
    NextRound(frame, out, listed, n, separator, maxDepth, c, next);
    forall m | m in Unlisted(frame, listed) ensures m in Titles(out) {
      StillThere(frame, out, listed, n, separator, maxDepth, m);
    }
    OneRoundKeepsOrder(out, c.name, separator, maxDepth, next, Unlisted(frame, listed));
  }

  lemma BeforeRounds(frame: seq<Column>, listed: seq<string>, separator: string, maxDepth: nat)
    requires IsSelection(frame, listed)
    ensures AfterSome(frame, frame, listed, 0, separator, maxDepth)
  {
    hide GeneratedFrom, Titles, NoRepeats;
    assert listed[..0] == [];
  }

  lemma EachStep(frame: seq<Column>, listed: seq<string>, n: nat, separator: string, maxDepth: nat)
    requires 0 < n <= |listed|
    ensures var before := ExpandEach(frame, listed, n - 1, separator, maxDepth);
            ExpandEach(frame, listed, n, separator, maxDepth)
            == if before.Refused? then before else ExpandOne(before.columns, listed[n - 1], separator, maxDepth)
  {
    hide ExpandOne;
  }

  lemma {:induction false} AfterRounds(frame: seq<Column>, listed: seq<string>, n: nat, separator: string,
        maxDepth: nat)
    requires IsSelection(frame, listed)
    requires n <= |listed| && ExpandEach(frame, listed, n, separator, maxDepth).Frame?
    ensures var out := ExpandEach(frame, listed, n, separator, maxDepth).columns;
            && AfterSome(frame, out, listed, n, separator, maxDepth)
            && Only(out, Unlisted(frame, listed)) == Only(frame, Unlisted(frame, listed))
  {
    hide ExpandOne, AfterSome, Only, IsSelection, Unlisted;
    if n == 0 {
      BeforeRounds(frame, listed, separator, maxDepth);
    } else {
      EachStep(frame, listed, n, separator, maxDepth);
      hide ExpandEach;
      AfterRounds(frame, listed, n - 1, separator, maxDepth);
      RoundKeeps(frame, ExpandEach(frame, listed, n - 1, separator, maxDepth).columns, listed, n - 1, separator,
                 maxDepth, ExpandEach(frame, listed, n, separator, maxDepth).columns);
    }
  }

  /** After all rounds the frame holds the columns that were not listed, untouched and in their order, and
      exactly the columns generated from each listed column of the frame it started from, none lost to a later
      round; no title repeats. */
  lemma FlattenedFrame(frame: seq<Column>, listed: seq<string>, separator: string, maxDepth: nat)
    requires IsSelection(frame, listed)
    requires ExpandEach(frame, listed, |listed|, separator, maxDepth).Frame?
    ensures var out := ExpandEach(frame, listed, |listed|, separator, maxDepth).columns;
            && NoRepeats(Titles(out))
            && Only(out, Unlisted(frame, listed)) == Only(frame, Unlisted(frame, listed))
            && forall x :: x in out <==> IsLeft(frame, x, listed, separator, maxDepth)
  {
    hide ExpandEach, IsSelection, Only, Unlisted, GeneratedFrom, Titles, NoRepeats;
    AfterRounds(frame, listed, |listed|, separator, maxDepth);
    assert listed[..|listed|] == listed;
  }

  /** Listing each column once, only a clash of names can refuse. */
  lemma {:induction false} OnlyClashesRefuse(frame: seq<Column>, listed: seq<string>, n: nat, separator: string,
        maxDepth: nat)
    requires IsSelection(frame, listed)
    requires n <= |listed|
    ensures var outcome := ExpandEach(frame, listed, n, separator, maxDepth);
            outcome.Refused? ==> outcome.refusal.Clash?
  {
    hide AfterSome, IsSelection, HasColumn, Only, RecordsOf, NamesIn, Expanded, IndexOf;
    if n > 0 {
      OnlyClashesRefuse(frame, listed, n - 1, separator, maxDepth);
      EachStep(frame, listed, n, separator, maxDepth);
      hide ExpandEach;
      var before := ExpandEach(frame, listed, n - 1, separator, maxDepth);
      if before.Frame? {
        AfterRounds(frame, listed, n - 1, separator, maxDepth);
        var c := Listed(frame, before.columns, listed, n - 1, separator, maxDepth);
      }
    }
  }

  // --- when the whole list succeeds --------------------------------------------------------------

  /** The names a column of the starting frame generates. */
  function NamesFrom(frame: seq<Column>, name: string, separator: string, maxDepth: nat): seq<string>
    requires HasColumn(frame, name)
  {
    NamesIn(RecordsOf(frame[IndexOf(frame, name)], separator, maxDepth))
  }

  /** Column i of the list generates no title that is there by its turn: that of an unlisted column, of a
      column listed later, or one an earlier listed column generates. Its own title is free. */
  ghost predicate NoClash(frame: seq<Column>, listed: seq<string>, i: nat, separator: string, maxDepth: nat)
    requires i < |listed| && forall m | m in listed :: HasColumn(frame, m)
  {
    forall n | n in NamesFrom(frame, listed[i], separator, maxDepth) && n != listed[i] ::
      && n !in Unlisted(frame, listed) && n !in listed[i + 1..]
      && !GeneratedBefore(frame, listed, i, separator, maxDepth, n)
  }

  ghost predicate GeneratedBefore(frame: seq<Column>, listed: seq<string>, i: nat, separator: string, maxDepth: nat,
                                  n: string)
    requires i <= |listed| && forall m | m in listed :: HasColumn(frame, m)
  {
    exists j :: 0 <= j < i && n in NamesFrom(frame, listed[j], separator, maxDepth)
  }

  lemma SelectionExists(frame: seq<Column>, listed: seq<string>)
    requires IsSelection(frame, listed)
    ensures forall m | m in listed :: HasColumn(frame, m)
  {
    forall m | m in listed ensures HasColumn(frame, m) {
      InTitles(frame, m);
    }
  }

  lemma OriginOf(frame: seq<Column>, c: Column)
    requires NoRepeats(Titles(frame)) && c in frame
    ensures HasColumn(frame, c.name) && frame[IndexOf(frame, c.name)] == c
  {
    var i :| 0 <= i < |frame| && frame[i] == c;
    assert HasColumn(frame, c.name);
    OneOfATitle(frame, frame[IndexOf(frame, c.name)], c);
  }

  /** The titles after n rounds, in terms of the starting frame. */
  lemma TitlesAfterRounds(frame: seq<Column>, out: seq<Column>, listed: seq<string>, n: nat, separator: string,
                          maxDepth: nat, title: string)
    requires IsSelection(frame, listed) && n <= |listed| && forall m | m in listed :: HasColumn(frame, m)
    requires AfterSome(frame, out, listed, n, separator, maxDepth)
    ensures title in Titles(out) <==>
              || title in Unlisted(frame, listed) || title in listed[n..]
              || GeneratedBefore(frame, listed, n, separator, maxDepth, title)
  {
    if title in Titles(out) {
      TitleComesFrom(frame, out, listed, n, separator, maxDepth, title);
    }
    if title in Unlisted(frame, listed) || title in listed[n..] {
      if title in listed[n..] { LaterListed(listed, n, title); }
      StillThere(frame, out, listed, n, separator, maxDepth, title);
    }
    if GeneratedBefore(frame, listed, n, separator, maxDepth, title) {
      var j :| 0 <= j < n && title in NamesFrom(frame, listed[j], separator, maxDepth);
      var c := frame[IndexOf(frame, listed[j])];
      var g := GeneratedNamed(c, separator, maxDepth, title);
      assert c.name in listed[..n];
      assert g in out;
      var i :| 0 <= i < |out| && out[i] == g;
      assert Titles(out)[i] == title;
    }
  }

  lemma LaterListed(listed: seq<string>, n: nat, title: string)
    requires NoRepeats(listed) && n <= |listed| && title in listed[n..]
    ensures title in listed && title !in listed[..n]
  {
    var i :| 0 <= i < |listed[n..]| && listed[n..][i] == title;
    assert listed[n + i] == title;
  }

  lemma GeneratedNamed(c: Column, separator: string, maxDepth: nat, title: string) returns (g: Column)
    requires title in NamesIn(RecordsOf(c, separator, maxDepth))
    ensures g in GeneratedFrom(c, separator, maxDepth) && g.name == title
  {
    g := Generated(title, RecordsOf(c, separator, maxDepth));
    GeneratedAre(NamesIn(RecordsOf(c, separator, maxDepth)), RecordsOf(c, separator, maxDepth), g);
  }

  lemma TitleComesFrom(frame: seq<Column>, out: seq<Column>, listed: seq<string>, n: nat, separator: string,
                       maxDepth: nat, title: string)
    requires IsSelection(frame, listed) && n <= |listed| && forall m | m in listed :: HasColumn(frame, m)
    requires AfterSome(frame, out, listed, n, separator, maxDepth) && title in Titles(out)
    ensures || title in Unlisted(frame, listed) || title in listed[n..]
            || GeneratedBefore(frame, listed, n, separator, maxDepth, title)
  {
    var i :| 0 <= i < |out| && Titles(out)[i] == title;
    var x := out[i];
    assert IsLeft(frame, x, listed[..n], separator, maxDepth);
    hide AfterSome, GeneratedFrom, RecordsOf, NamesIn;
    if x in frame && x.name !in listed[..n] {
      OriginOf(frame, x);
      InTitles(frame, title);
      assert listed == listed[..n] + listed[n..];
    } else {
      var c :| c in frame && c.name in listed[..n] && x in GeneratedFrom(c, separator, maxDepth);
      OriginOf(frame, c);
      GeneratedTitles(c, separator, maxDepth);
      var j :| 0 <= j < n && listed[..n][j] == c.name;
      assert title in NamesFrom(frame, listed[j], separator, maxDepth);
    }
  }

  /** A round succeeds exactly when its column clashes with nothing. */
  lemma RoundSucceedsIff(frame: seq<Column>, out: seq<Column>, listed: seq<string>, n: nat, separator: string,
                         maxDepth: nat)
    requires IsSelection(frame, listed) && n < |listed| && forall m | m in listed :: HasColumn(frame, m)
    requires AfterSome(frame, out, listed, n, separator, maxDepth)
    ensures ExpandOne(out, listed[n], separator, maxDepth).Frame? <==> NoClash(frame, listed, n, separator, maxDepth)
  {
    var c := Listed(frame, out, listed, n, separator, maxDepth);
    OriginOf(frame, c);
    OriginOf(out, c);
    assert listed[n..] == [c.name] + listed[n + 1..];
    var names := NamesFrom(frame, c.name, separator, maxDepth);
    forall m ensures HasColumn(out, m) <==>
        || m in Unlisted(frame, listed) || m in listed[n..]
        || GeneratedBefore(frame, listed, n, separator, maxDepth, m)
    {
      InTitles(out, m);
      TitlesAfterRounds(frame, out, listed, n, separator, maxDepth, m);
    }
    hide AfterSome, IsSelection, RecordsOf, NamesIn, Expanded, HasColumn, Unlisted, GeneratedBefore, IndexOf;
    assert names == NamesIn(RecordsOf(c, separator, maxDepth));
  }

  /** Flattening the listed columns succeeds exactly when none of them clashes, which the starting frame tells. */
  lemma {:induction false} SucceedsIffNoClash(frame: seq<Column>, listed: seq<string>, n: nat, separator: string,
        maxDepth: nat)
    requires IsSelection(frame, listed) && n <= |listed| && forall m | m in listed :: HasColumn(frame, m)
    ensures ExpandEach(frame, listed, n, separator, maxDepth).Frame? <==>
            forall i | 0 <= i < n :: NoClash(frame, listed, i, separator, maxDepth)
  {
    hide ExpandOne, NoClash, AfterSome, IsSelection, HasColumn;
    if n > 0 {
      EachStep(frame, listed, n, separator, maxDepth);
      SucceedsIffNoClash(frame, listed, n - 1, separator, maxDepth);
      hide ExpandEach;
      var before := ExpandEach(frame, listed, n - 1, separator, maxDepth);
      if before.Frame? {
        AfterRounds(frame, listed, n - 1, separator, maxDepth);
        RoundSucceedsIff(frame, before.columns, listed, n - 1, separator, maxDepth);
      }
    }
  }

  // --- what the finished frame holds ---------------------------------------------------------------

  /** The value of the last end of each name, in every object of every listed column, is found in the finished
      frame under that name. */
  lemma FlattenedValues(frame: seq<Column>, listed: seq<string>, separator: string, maxDepth: nat, c: Column, r: nat,
                        i: nat)
    returns (g: Column)
    requires IsSelection(frame, listed)
    requires ExpandEach(frame, listed, |listed|, separator, maxDepth).Frame?
    requires c in frame && c.name in listed && r < |c.cells| && c.cells[r].Object? && WellFormed(c.cells[r])
    requires i < |Ends(c.cells[r], maxDepth)| && IsLastOfName(c.cells[r], c.name, separator, maxDepth, i)
    ensures var path := Ends(c.cells[r], maxDepth)[i];
            && g in ExpandEach(frame, listed, |listed|, separator, maxDepth).columns
            && g.name == NameOf(c.name, path, separator)
            && IsEnd(c.cells[r], path, maxDepth)
            && r < |g.cells| && g.cells[r] == At(c.cells[r], path).value
  {
    var records := RecordsOf(c, separator, maxDepth);
    var name := NameOf(c.name, Ends(c.cells[r], maxDepth)[i], separator);
    g := Generated(name, records);
    ExpandedValues(c, separator, maxDepth, r, i);
    GeneratedAre(NamesIn(records), records, g);
    FlattenedFrame(frame, listed, separator, maxDepth);
    assert IsLeft(frame, g, listed, separator, maxDepth);
  }

  /** A generated column holds null in the rows that have no value of its name: those whose object has no end of
      that name, and those without an object. */
  lemma OtherCellsAreNull(c: Column, separator: string, maxDepth: nat, g: Column, r: nat)
    requires g in GeneratedFrom(c, separator, maxDepth) && r < |c.cells|
    requires c.cells[r].Object? ==>
               && WellFormed(c.cells[r])
               && forall path | IsEnd(c.cells[r], path, maxDepth) :: NameOf(c.name, path, separator) != g.name
    ensures r < |g.cells| && g.cells[r] == Leaf(Null)
  {
    var records := RecordsOf(c, separator, maxDepth);
    GeneratedAre(NamesIn(records), records, g);
    if c.cells[r].Object? {
      var entries := Entries(c.cells[r], c.name, separator, maxDepth);
      EntriesFollowEnds(c.cells[r], c.name, separator, maxDepth);
      PutAllNames(entries, g.name);
    }
    hide NamesIn, RecordsOf, Entries, PutAll, IsEnd, NameOf;
    assert !Has(records[r], g.name);
    LookupMisses(records[r], g.name);
  }

  /** A cell that is no object is still there after its column was expanded only if it was null: some generated
      column holds it in its row exactly when it is null and there is a generated column at all. */
  lemma LeafIsKeptIffNull(c: Column, separator: string, maxDepth: nat, r: nat)
    requires r < |c.cells| && c.cells[r].Leaf?
    ensures HeldBy(GeneratedFrom(c, separator, maxDepth), r, c.cells[r])
       <==> c.cells[r] == Leaf(Null) && GeneratedFrom(c, separator, maxDepth) != []
  {
    var all := GeneratedFrom(c, separator, maxDepth);
    forall g | g in all ensures r < |g.cells| && g.cells[r] == Leaf(Null) {
      OtherCellsAreNull(c, separator, maxDepth, g, r);
    }
    hide GeneratedFrom;
    if all != [] {
      assert all[0] in all;
    }
  }

  ghost predicate HeldBy(columns: seq<Column>, r: nat, cell: Json) {
    exists g :: g in columns && r < |g.cells| && g.cells[r] == cell
  }

  lemma NoRepeatsFirst(first: string, rest: seq<string>)
    ensures NoRepeats([first] + rest) <==> first !in rest && NoRepeats(rest)
  {
    var all := [first] + rest;
    assert forall i | 0 <= i < |rest| :: all[i + 1] == rest[i];
    assert all[0] == first && all[1..] == rest;
    if NoRepeats(all) {
      forall i, j | 0 <= i < j < |rest| ensures rest[i] != rest[j] {
        assert all[i + 1] != all[j + 1];
      }
    }
  }

  /** The columns taken when none are listed are those that hold an object in some row. */
  lemma {:induction false} ObjectColumnsAreThose(frame: seq<Column>, name: string)
    ensures name in ObjectColumns(frame) <==>
            exists i, r | 0 <= i < |frame| && 0 <= r < |frame[i].cells| ::
              frame[i].name == name && frame[i].cells[r].Object?
  {
    if frame != [] {
      ObjectColumnsAreThose(frame[1..], name);
      hide ObjectColumns;
      if i, r :| 0 <= i < |frame| && 0 <= r < |frame[i].cells| && frame[i].name == name && frame[i].cells[r].Object? {
        if i > 0 { assert frame[1..][i - 1] == frame[i]; }
      }
      if i, r :| 0 <= i < |frame[1..]| && 0 <= r < |frame[1..][i].cells| && frame[1..][i].name == name
                 && frame[1..][i].cells[r].Object? {
        assert frame[i + 1] == frame[1..][i];
      }
    }
  }

  /** The columns taken when none are listed can always be looked up, one after the other. */
  lemma {:induction false} ObjectColumnsAreFound(frame: seq<Column>)
    requires NoRepeats(Titles(frame))
    ensures NoRepeats(ObjectColumns(frame)) && forall n | n in ObjectColumns(frame) :: n in Titles(frame)
  {
    if frame != [] {
      assert Titles(frame) == [frame[0].name] + Titles(frame[1..]);
      NoRepeatsFirst(frame[0].name, Titles(frame[1..]));
      ObjectColumnsAreFound(frame[1..]);
      NoRepeatsFirst(frame[0].name, ObjectColumns(frame[1..]));
    }
  }
}
