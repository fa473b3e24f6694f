/** Which separators give every flattened value a name of its own. */
module FlatNames {
  import opened Frames
  import opened Strings
  import opened Flattening

  /** No key contains the separator. */
  ghost predicate SeparatorFree(value: Json, separator: string) {
    value.Leaf? || FieldsSeparatorFree(value.fields, separator)
  }

  ghost predicate FieldsSeparatorFree(fields: Fields, separator: string) {
    fields.NoField? || (!Contains(fields.key, separator) && SeparatorFree(fields.value, separator)
        && FieldsSeparatorFree(fields.rest, separator))
  }

  /** The text starts and ends with the same d characters. */
  predicate IsBorder(text: string, d: nat) {
    0 < d < |text| && text[..d] == text[|text| - d..]
  }

  /** Every object whose keys do not contain the separator gives distinct names. */
  ghost predicate SeparatesAll(prefix: string, separator: string, levels: nat) {
    forall value | WellFormed(value) && SeparatorFree(value, separator) :: NamesApart(value, prefix, separator, levels)
  }

  /** A separator keeps the names of all objects apart whose keys do not contain it exactly when it cannot
      overlap itself, or only one level is flattened. */
  lemma SeparatesAllIffNoBorder(prefix: string, separator: string, levels: nat)
    ensures SeparatesAll(prefix, separator, levels) <==> levels <= 1 || forall d: nat :: !IsBorder(separator, d)
  {
    if levels <= 1 || forall d: nat :: !IsBorder(separator, d) {
      forall value | WellFormed(value) && SeparatorFree(value, separator)
        ensures NamesApart(value, prefix, separator, levels)
      {
        forall p, q | IsEnd(value, p, levels) && IsEnd(value, q, levels)
            && NameOf(prefix, p, separator) == NameOf(prefix, q, separator)
          ensures p == q
        {
          if levels <= 1 {
            OneLevelIsApart(value, prefix, separator, levels, p, q);
          } else {
            SameNameSamePath(value, prefix, separator, levels, p, q);
          }
        }
      }
    } else {
      var d: nat :| IsBorder(separator, d);
      var value := BorderJoinsNames(prefix, separator, d, levels);
      assert !NamesApart(value, prefix, separator, levels);
    }
  }

  lemma OneLevelIsApart(value: Json, prefix: string, separator: string, levels: nat, p: seq<string>, q: seq<string>)
    requires levels <= 1 && IsEnd(value, p, levels) && IsEnd(value, q, levels)
    requires NameOf(prefix, p, separator) == NameOf(prefix, q, separator)
    ensures p == q
  {
    if p != [] && q != [] {
      assert p == [p[0]] && q == [q[0]];
      NameOfStep(prefix, p[0], [], separator);
      NameOfStep(prefix, q[0], [], separator);
      SameSuffix(prefix + separator, p[0], q[0]);
    }
  }

  // --- separators that cannot overlap themselves -------------------------------------------------

  /** A name that continues `stem` with nothing or with the separator. */
  ghost predicate Continues(name: string, stem: string, separator: string) {
    name == stem || stem + separator <= name
  }

  lemma {:induction false} NameContinues(prefix: string, path: seq<string>, separator: string)
    ensures Continues(NameOf(prefix, path, separator), prefix, separator)
    decreases |path|
  {
    if path != [] {
      var stem := prefix + separator + path[0];
      NameContinues(stem, path[1..], separator);
      var name := NameOf(stem, path[1..], separator);
      assert stem <= name;
      assert prefix + separator == stem[..|prefix + separator|];
    }
  }

  lemma ChildIsFree(fields: Fields, key: string, separator: string)
    requires FieldsSeparatorFree(fields, separator) && Child(fields, key).Some?
    ensures !Contains(key, separator) && SeparatorFree(Child(fields, key).value, separator)
  {
    if fields.key != key { ChildIsFree(fields.rest, key, separator); }
  }

  /** Of two keys that the same text continues, the longer one contains the separator, or the separator
      overlaps itself. */
  lemma LongerKeyHasSeparator(text: string, a: string, b: string, separator: string)
    requires |a| < |b| && Continues(text, a, separator) && Continues(text, b, separator)
    ensures Contains(b, separator) || exists d: nat :: IsBorder(separator, d)
  {
    var end := |a| + |separator|;
    assert text[..end] == a + separator && text[|a|..end] == separator;
    if end <= |b| {
      assert b == text[..|b|];
      assert OccursAt(b, separator, |a|);
    } else {
      var d := end - |b|;
      assert b + separator == text[..|b| + |separator|];
      assert separator[..d] == text[|b|..end];
      assert separator[|separator| - d..] == text[|b|..end];
      assert IsBorder(separator, d);
    }
  }

  /** The part of a name after the prefix tells the key. */
  lemma SameNameSameKey(name: string, prefix: string, separator: string, a: string, b: string)
    requires (forall d: nat :: !IsBorder(separator, d)) && !Contains(a, separator) && !Contains(b, separator)
    requires Continues(name, prefix + separator + a, separator) && Continues(name, prefix + separator + b, separator)
    ensures a == b
  {
    var stem := prefix + separator;
    var text := name[|stem|..];
    ContinuesAfter(name, stem, a, separator);
    ContinuesAfter(name, stem, b, separator);
    if |a| < |b| {
      LongerKeyHasSeparator(text, a, b, separator);
    } else if |b| < |a| {
      LongerKeyHasSeparator(text, b, a, separator);
    } else {
      assert a == text[..|a|] == b;
    }
  }

  lemma ContinuesAfter(name: string, stem: string, key: string, separator: string)
    requires Continues(name, stem + key, separator)
    ensures |stem| <= |name| && Continues(name[|stem|..], key, separator)
  {
    var text := name[|stem|..];
    if name == stem + key {
      assert text == key;
    } else {
      assert name[..|stem + key + separator|] == stem + key + separator;
      assert text[..|key + separator|] == key + separator;
    }
  }

  /** Two ends of one name are the same end: the first keys agree, and so on down the path. */
  lemma {:induction false} SameNameSamePath(value: Json, prefix: string, separator: string, levels: nat,
        p: seq<string>, q: seq<string>)
    requires SeparatorFree(value, separator) && forall d: nat :: !IsBorder(separator, d)
    requires IsEnd(value, p, levels) && IsEnd(value, q, levels)
    requires NameOf(prefix, p, separator) == NameOf(prefix, q, separator)
    ensures p == q
    decreases |p|
  {
    if p != [] && q != [] {
      var name := NameOf(prefix, p, separator);
      NameContinues(prefix + separator + p[0], p[1..], separator);
      NameContinues(prefix + separator + q[0], q[1..], separator);
      ChildIsFree(value.fields, p[0], separator);
      ChildIsFree(value.fields, q[0], separator);
      SameNameSameKey(name, prefix, separator, p[0], q[0]);
      var stem := prefix + separator + p[0];
      SameNameSamePath(Child(value.fields, p[0]).value, stem, separator, levels - 1, p[1..], q[1..]);
      assert p == [p[0]] + p[1..] && q == [q[0]] + q[1..];
    }
  }

  // --- separators that overlap themselves --------------------------------------------------------

  lemma ShorterIsFree(key: string, separator: string)
    requires |key| < |separator|
    ensures !Contains(key, separator)
  {
  }

  /** What a border of length d joins: with s + separator == separator + e, the paths s, "" and "", e. */
  lemma BorderShifts(separator: string, d: nat)
    requires IsBorder(separator, d)
    ensures separator[..|separator| - d] + separator == separator + separator[d..]
  {
    var s := |separator| - d;
    assert separator == separator[..s] + separator[s..];
    assert separator == separator[..d] + separator[d..];
    assert separator[..s] + (separator[..d] + separator[d..]) == (separator[..s] + separator[s..]) + separator[d..];
  }

  lemma BorderJoinsNames(prefix: string, separator: string, d: nat, levels: nat) returns (value: Json)
    requires IsBorder(separator, d) && levels >= 2
    ensures WellFormed(value) && SeparatorFree(value, separator) && !NamesApart(value, prefix, separator, levels)
  {
    var s, e := separator[..|separator| - d], separator[d..];
    var second := Field("", Single(e, Leaf(Null)), NoField);
    value := Object(Field(s, Single("", Leaf(Null)), second));
    ShorterIsFree(s, separator);
    ShorterIsFree(e, separator);
    ShorterIsFree("", separator);
    SingleIsFine("", Leaf(Null), separator);
    SingleIsFine(e, Leaf(Null), separator);
    assert FieldsWellFormed(NoField) && FieldsWellFormed(second) && Child(second, s) == Child(NoField, s) == None;
    assert FieldsSeparatorFree(second, separator);
    var p, q := [s, ""], ["", e];
    assert p[1..] == [""] && q[1..] == [e];
    assert Child(second, "").value == Single(e, Leaf(Null));
    assert At(value, p) == At(Single("", Leaf(Null)), [""]) && At(value, q) == At(Single(e, Leaf(Null)), [e]);
    TwoSteps(prefix, s, "", separator);
    TwoSteps(prefix, "", e, separator);
    BorderShifts(separator, d);
    assert prefix + separator + s + separator + "" == prefix + separator + (s + separator);
    assert prefix + separator + "" + separator + e == prefix + separator + (separator + e);
    assert IsEnd(value, p, levels) && IsEnd(value, q, levels) && p[0] != q[0];
  }

  lemma TwoSteps(prefix: string, a: string, b: string, separator: string)
    ensures NameOf(prefix, [a, b], separator) == prefix + separator + a + separator + b
  {
    assert [a] + [b] == [a, b];
    NameOfStep(prefix, a, [b], separator);
    NameOfStep(prefix + separator + a, b, [], separator);
  }

  lemma SingleIsFine(key: string, leaf: Json, separator: string)
    requires leaf.Leaf? && !Contains(key, separator)
    ensures WellFormed(Single(key, leaf)) && SeparatorFree(Single(key, leaf), separator)
    ensures At(Single(key, leaf), [key]) == Some(leaf)
  {
    assert FieldsWellFormed(NoField) && FieldsSeparatorFree(NoField, separator) && Child(NoField, key) == None;
  }

  function Single(key: string, value: Json): Json { Object(Field(key, value, NoField)) }

  lemma SingleEntry(key: string, cell: Cell, prefix: string, separator: string, levels: nat)
    requires levels >= 1
    ensures WellFormed(Single(key, Leaf(cell)))
    ensures Entries(Single(key, Leaf(cell)), prefix, separator, levels) == [Entry(prefix + separator + key, Leaf(cell))]
  {
    assert Entries(Leaf(cell), prefix + separator + key, separator, levels - 1)
        == [Entry(prefix + separator + key, Leaf(cell))];
    assert FieldEntries(NoField, prefix, separator, levels - 1) == [];
    assert Child(NoField, key) == None && WellFormed(Leaf(cell)) && FieldsWellFormed(NoField);
  }

  /** An object of two fields, each giving one entry of the same name, keeps only the later value. */
  lemma TwoFieldsOneName(a: string, first: Json, b: string, second: Json, column: string, separator: string,
                         maxDepth: nat, one: Entry, two: Entry)
    requires a != b && WellFormed(first) && WellFormed(second) && maxDepth >= 1 && one.name == two.name
    requires Entries(first, column + separator + a, separator, maxDepth - 1) == [one]
    requires Entries(second, column + separator + b, separator, maxDepth - 1) == [two]
    ensures var value := Object(Field(a, first, Field(b, second, NoField)));
            WellFormed(value) && Flat(value, column, separator, maxDepth) == [two]
  {
    var later := Field(b, second, NoField);
    var value := Object(Field(a, first, later));
    assert Child(NoField, b) == None && FieldsWellFormed(NoField)
        && FieldEntries(NoField, column, separator, maxDepth - 1) == [];
    assert FieldsWellFormed(later) && FieldEntries(later, column, separator, maxDepth - 1) == [two];
    assert Child(later, a) == Child(NoField, a) == None;
    var entries := [one, two];
    assert Entries(value, column, separator, maxDepth) == entries;
    assert entries[..1] == [one] && entries[..1][..0] == [];
    assert PutAll([], entries[..1]) == [one];
  }

  /** A key that contains the separator takes the name of a nested value, which is lost. */
  lemma KeyWithSeparatorLosesAValue(one: Cell, two: Cell)
    ensures var value := Object(Field("a", Single("b", Leaf(one)), Field("a_b", Leaf(two), NoField)));
            WellFormed(value) && Flat(value, "c", "_", 5) == [Entry("c_a_b", Leaf(two))]
  {
    assert "c" + "_" + "a" == "c_a" && "c_a" + "_" + "b" == "c_a_b" && "c" + "_" + "a_b" == "c_a_b";
    SingleEntry("b", one, "c_a", "_", 4);
    TwoFieldsOneName("a", Single("b", Leaf(one)), "a_b", Leaf(two), "c", "_", 5,
                     Entry("c_a_b", Leaf(one)), Entry("c_a_b", Leaf(two)));
  }

  /** With a separator of two characters even keys that do not contain it collide: a, x and "", ax. */
  lemma LongSeparatorLosesAValue(one: Cell, two: Cell)
    ensures var value := Object(Field("a", Single("x", Leaf(one)), Field("", Single("ax", Leaf(two)), NoField)));
            WellFormed(value) && Flat(value, "c", "aa", 5) == [Entry("caaaaax", Leaf(two))]
  {
    assert "c" + "aa" + "a" == "caaa" && "caaa" + "aa" + "x" == "caaaaax";
    assert "c" + "aa" + "" == "caa" && "caa" + "aa" + "ax" == "caaaaax";
    SingleEntry("x", one, "caaa", "aa", 4);
    SingleEntry("ax", two, "caa", "aa", 4);
    TwoFieldsOneName("a", Single("x", Leaf(one)), "", Single("ax", Leaf(two)), "c", "aa", 5,
                     Entry("caaaaax", Leaf(one)), Entry("caaaaax", Leaf(two)));
  }
}
