/** The enum generator of tools/scripts/generate_enum_bindings.py: camelCase type
    ids become UPPER_SNAKE enum names, kept in an insertion-ordered id map, from
    which the enum body and the JSON binding lines are emitted. */
module EnumBindings {

  // ---------------------------------------------------------------- id_to_enum

  /** str.isupper on one character, for ASCII letters. */
  predicate IsUpper(c: char) {
    'A' <= c <= 'Z'
  }

  predicate IsLower(c: char) {
    'a' <= c <= 'z'
  }

  /** str.upper on one character, for ASCII letters. */
  function ToUpper(c: char): (u: char)
    ensures !IsLower(u)
    ensures !IsLower(c) ==> u == c
    ensures IsLower(c) ==> IsUpper(u) && u as int == c as int - 32
    ensures IsLower(c) ==> ToLower(u) == c
  {
    if IsLower(c) then (c as int - 32) as char else c
  }

  function ToLower(c: char): char {
    if IsUpper(c) then (c as int + 32) as char else c
  }

  /** What one character of the id contributes to the enum name. */
  function EnumPiece(c: char): string {
    (if IsUpper(c) then "_" else "") + [ToUpper(c)]
  }

  /** id_to_enum, stated character by character. */
  function EnumIdOf(id: string): string {
    if id == [] then [] else EnumIdOf(id[..|id| - 1]) + EnumPiece(id[|id| - 1])
  }

  /** id_to_enum: the loop that appends `_` before an uppercase character and then
      the character upper-cased. */
  method IdToEnum(id: string) returns (enumId: string)
    ensures enumId == EnumIdOf(id)
  {
    enumId := "";
    var i := 0;
    while i < |id|
      invariant 0 <= i <= |id|
      invariant enumId == EnumIdOf(id[..i])
    {
      assert id[..i + 1][..i] == id[..i];
      if IsUpper(id[i]) {
        enumId := enumId + "_";
      }
      enumId := enumId + [ToUpper(id[i])];
      i := i + 1;
    }
    assert id[..|id|] == id;
  }

  /** The conversion works piece by piece: the name of a concatenation is the
      concatenation of the names. */
  lemma {:induction false} EnumIdOfAppend(a: string, b: string)
    ensures EnumIdOf(a + b) == EnumIdOf(a) + EnumIdOf(b)
  {
    if b == [] {
      assert a + b == a;
    } else {
      assert (a + b)[..|a + b| - 1] == a + b[..|b| - 1];
      EnumIdOfAppend(a, b[..|b| - 1]);
    }
  }

  function UpperCount(id: string): nat {
    if id == [] then 0 else UpperCount(id[..|id| - 1]) + (if IsUpper(id[|id| - 1]) then 1 else 0)
  }

  /** The name is one character longer than the id for each uppercase character. */
  lemma {:induction false} EnumIdLength(id: string)
    ensures |EnumIdOf(id)| == |id| + UpperCount(id)
  {
    if id != [] {
      EnumIdLength(id[..|id| - 1]);
    }
  }

  /** The name has no lowercase letter left. */
  lemma {:induction false} EnumIdHasNoLower(id: string)
    ensures forall i :: 0 <= i < |EnumIdOf(id)| ==> !IsLower(EnumIdOf(id)[i])
  {
    if id != [] {
      EnumIdHasNoLower(id[..|id| - 1]);
    }
  }

  function UpperAll(s: string): (u: string)
    ensures |u| == |s|
  {
    seq(|s|, i requires 0 <= i < |s| => ToUpper(s[i]))
  }

  /** An id without uppercase characters just becomes its uppercase self. */
  lemma {:induction false} EnumIdWithoutUpper(id: string)
    requires forall i :: 0 <= i < |id| ==> !IsUpper(id[i])
    ensures EnumIdOf(id) == UpperAll(id)
  {
    if id != [] {
      EnumIdWithoutUpper(id[..|id| - 1]);
      assert UpperAll(id) == UpperAll(id[..|id| - 1]) + [ToUpper(id[|id| - 1])];
    }
  }

  /** Reads an enum name back into a camelCase id: `_X` gives X, any other
      character is lower-cased. */
  function IdOfEnum(e: string): string
    decreases |e|
  {
    if e == [] then []
    else if e[0] == '_' && |e| >= 2 then [e[1]] + IdOfEnum(e[2..])
    else [ToLower(e[0])] + IdOfEnum(e[1..])
  }

  /** For ids without underscores the conversion loses nothing: reading the name
      back gives the id. */
  lemma {:induction false} EnumIdRoundTrip(id: string)
    requires forall i :: 0 <= i < |id| ==> id[i] != '_'
    ensures IdOfEnum(EnumIdOf(id)) == id
  {
    if id != [] {
      var c := id[0];
      var rest := id[1..];
      assert id == [c] + rest;
      EnumIdOfAppend([c], rest);
      assert EnumIdOf([c]) == EnumPiece(c) by {
        assert [c][..0] == [];
      }
      EnumIdRoundTrip(rest);
      if IsUpper(c) {
        assert EnumIdOf(id) == "_" + [c] + EnumIdOf(rest);
        assert (("_" + [c]) + EnumIdOf(rest))[2..] == EnumIdOf(rest);
      } else {
        assert EnumIdOf(id) == [ToUpper(c)] + EnumIdOf(rest);
        assert ([ToUpper(c)] + EnumIdOf(rest))[1..] == EnumIdOf(rest);
      }
    }
  }

  /** Hence two different ids without underscores never share an enum name. */
  lemma EnumIdInjective(a: string, b: string)
    requires forall i :: 0 <= i < |a| ==> a[i] != '_'
    requires forall i :: 0 <= i < |b| ==> b[i] != '_'
    requires EnumIdOf(a) == EnumIdOf(b)
    ensures a == b
  {
    EnumIdRoundTrip(a);
    EnumIdRoundTrip(b);
  }

  /** With an underscore in the id, names can collide: `a_b` and `aB` both give
      `A_B`. */
  lemma EnumIdCollision()
    ensures EnumIdOf("a_b") == EnumIdOf("aB") == "A_B"
  {
    EnumIdOfAppend("a", "_b");
    EnumIdOfAppend("_", "b");
    EnumIdOfAppend("a", "B");
    assert EnumIdOf("a") == "A" by {
      assert "a"[..0] == [];
    }
    assert EnumIdOf("_") == "_" by {
      assert "_"[..0] == [];
    }
    assert EnumIdOf("b") == "B" by {
      assert "b"[..0] == [];
    }
    assert EnumIdOf("B") == "_B" by {
      assert "B"[..0] == [];
    }
    assert "a" + "_b" == "a_b";
    assert "_" + "b" == "_b";
    assert "a" + "B" == "aB";
  }

  // ---------------------------------------------------------------- the id map

  /** A Python dict from type id to enum name, keeping insertion order. */
  class IdEnumMap {
    var keys: seq<string>
    var values: map<string, string>

    ghost predicate Valid()
      reads this
    {
      && (forall i, j :: 0 <= i < j < |keys| ==> keys[i] != keys[j])
      && (forall k :: k in values <==> k in keys)
    }

    /** Every entry holds the enum name of its key. */
    ghost predicate AllConverted()
      reads this
    {
      forall k :: k in values ==> values[k] == EnumIdOf(k)
    }

    /** `{'none': 'NONE'}`. */
    constructor ()
      ensures Valid() && AllConverted()
      ensures keys == ["none"] && values == map["none" := "NONE"]
    {
      keys := ["none"];
      values := map["none" := "NONE"];
      assert EnumIdOf("none") == "NONE" by {
        EnumIdWithoutUpper("none");
      }
    }

    /** `d[type_id] = ""`: a new key goes to the end, an old one keeps its place. */
    method Blank(typeId: string)
      requires Valid()
      modifies this
      ensures Valid()
      ensures keys == AddKey(old(keys), typeId)
      ensures values == old(values)[typeId := ""]
    {
      if typeId !in values {
        keys := keys + [typeId];
      }
      values := values[typeId := ""];
    }

    /** `for id in d: d[id] = id_to_enum(id)`. */
    method RecomputeAll()
      requires Valid()
      modifies this
      ensures Valid() && AllConverted()
      ensures keys == old(keys) && values.Keys == old(values).Keys
      ensures old(AllConverted()) ==> values == old(values)
    {
      var i := 0;
      while i < |keys|
        invariant 0 <= i <= |keys|
        invariant Valid() && keys == old(keys) && values.Keys == old(values).Keys
        invariant forall j :: 0 <= j < i ==> values[keys[j]] == EnumIdOf(keys[j])
      {
        var e := IdToEnum(keys[i]);
        values := values[keys[i] := e];
        i := i + 1;
      }
      if old(AllConverted()) {
        assert forall k :: k in values ==> values[k] == old(values)[k];
      }
    }

    /** The steps both init functions take for one JSON file: set d[id] = "" for
        each of its `ids` in order, then recompute every entry with id_to_enum. */
    method AddIdsAndRecompute(ids: seq<string>)
      requires Valid()
      modifies this
      ensures Valid() && AllConverted()
      ensures keys == AddKeys(old(keys), ids)
    {
      var i := 0;
      while i < |ids|
        invariant 0 <= i <= |ids|
        invariant Valid()
        invariant AddKeys(keys, ids[i..]) == AddKeys(old(keys), ids)
      {
        assert ids[i..][1..] == ids[i + 1..];
        Blank(ids[i]);
        i := i + 1;
      }
      RecomputeAll();
    }

    /** init_monster_enums with the JSON read factored out: `typeIds` are the
        monsters' type ids in file order. */
    method InitMonsterEnums(typeIds: seq<string>)
      requires Valid()
      modifies this
      ensures Valid() && AllConverted()
      ensures keys == AddKeys(old(keys), typeIds)
    {
      AddIdsAndRecompute(typeIds);
    }

    /** init_item_enums with the file reads factored out: `files` holds each loot
        table file's item type ids; after each file every entry is recomputed. */
    method InitItemEnums(files: seq<seq<string>>)
      requires Valid()
      modifies this
      ensures Valid()
      ensures files != [] ==> AllConverted()
      ensures files == [] ==> values == old(values)
      ensures keys == AddKeys(old(keys), Flatten(files))
    {
      var f := 0;
      while f < |files|
        invariant 0 <= f <= |files|
        invariant Valid()
        invariant f > 0 ==> AllConverted()
        invariant f == 0 ==> values == old(values)
        invariant keys == AddKeys(old(keys), Flatten(files[..f]))
      {
        FlattenSnoc(files, f);
        AddKeysAppend(old(keys), Flatten(files[..f]), files[f]);
        AddIdsAndRecompute(files[f]);
        f := f + 1;
      }
      assert files[..|files|] == files;
    }

    /** The entries in insertion order, as `ids.items()` yields them. */
    function Items(): (items: seq<(string, string)>)
      requires Valid()
      reads this
      ensures |items| == |keys|
      ensures forall i :: 0 <= i < |items| ==> items[i].0 == keys[i] && items[i].1 == values[keys[i]]
      ensures AllConverted() ==> items == Converted(keys)
    {
      var ks, vs := keys, values;
      seq(|ks|, i requires 0 <= i < |ks| && ks[i] in vs => (ks[i], vs[ks[i]]))
    }
  }

  /** The entries of a fully converted map with these keys. */
  function Converted(keys: seq<string>): (items: seq<(string, string)>)
    ensures |items| == |keys|
    ensures forall i :: 0 <= i < |keys| ==> items[i] == (keys[i], EnumIdOf(keys[i]))
  {
    seq(|keys|, i requires 0 <= i < |keys| => (keys[i], EnumIdOf(keys[i])))
  }

  /** The key order after `d[k] = ...`. */
  function AddKey(keys: seq<string>, k: string): seq<string> {
    if k in keys then keys else keys + [k]
  }

  function AddKeys(keys: seq<string>, ids: seq<string>): seq<string>
    decreases |ids|
  {
    if ids == [] then keys else AddKeys(AddKey(keys, ids[0]), ids[1..])
  }

  function Flatten(files: seq<seq<string>>): seq<string> {
    if files == [] then [] else Flatten(files[..|files| - 1]) + files[|files| - 1]
  }

  lemma FlattenSnoc(files: seq<seq<string>>, f: nat)
    requires f < |files|
    ensures Flatten(files[..f + 1]) == Flatten(files[..f]) + files[f]
  {
    assert files[..f + 1][..f] == files[..f];
  }

  lemma {:induction false} AddKeysAppend(keys: seq<string>, a: seq<string>, b: seq<string>)
    ensures AddKeys(keys, a + b) == AddKeys(AddKeys(keys, a), b)
    decreases |a|
  {
    if a == [] {
      assert a + b == b;
    } else {
      assert (a + b)[1..] == a[1..] + b;
      AddKeysAppend(AddKey(keys, a[0]), a[1..], b);
    }
  }

  /** Adding keys only appends: the old order is a prefix of the new one, so the
      seeded `none` stays first; the keys are the old ones and the ids, without
      repeats. */
  lemma {:induction false} AddKeysFacts(keys: seq<string>, ids: seq<string>)
    ensures |keys| <= |AddKeys(keys, ids)| && AddKeys(keys, ids)[..|keys|] == keys
    ensures forall k :: k in AddKeys(keys, ids) <==> k in keys || k in ids
    ensures (forall i, j :: 0 <= i < j < |keys| ==> keys[i] != keys[j]) ==>
      forall i, j :: 0 <= i < j < |AddKeys(keys, ids)| ==> AddKeys(keys, ids)[i] != AddKeys(keys, ids)[j]
    decreases |ids|
  {
    if ids != [] {
      var keys' := AddKey(keys, ids[0]);
      AddKeysFacts(keys', ids[1..]);
      assert keys'[..|keys|] == keys;
      assert forall k :: k in ids <==> k == ids[0] || k in ids[1..];
    }
  }

  /** Ids already present add nothing: adding the same ids again changes no order. */
  lemma {:induction false} AddKeysPresent(keys: seq<string>, ids: seq<string>)
    requires forall i :: 0 <= i < |ids| ==> ids[i] in keys
    ensures AddKeys(keys, ids) == keys
    decreases |ids|
  {
    if ids != [] {
      AddKeysPresent(keys, ids[1..]);
    }
  }

  lemma AddKeysTwice(keys: seq<string>, ids: seq<string>)
    ensures AddKeys(AddKeys(keys, ids), ids) == AddKeys(keys, ids)
  {
    AddKeysFacts(keys, ids);
    AddKeysPresent(AddKeys(keys, ids), ids);
  }

  /** The seeded `none` is always the first key, whatever ids are added. */
  lemma NoneStaysFirst(ids: seq<string>)
    ensures |AddKeys(["none"], ids)| >= 1 && AddKeys(["none"], ids)[0] == "none"
  {
    AddKeysFacts(["none"], ids);
  }

  // ---------------------------------------------------------------- emitted text

  /** cpp_util.get_indentation_spaces: four spaces per level, as in the
      generated header. */
  function Indentation(level: nat): string {
    seq(4 * level, _ => ' ')
  }

  function ConcatAll(lines: seq<string>): string {
    if lines == [] then [] else ConcatAll(lines[..|lines| - 1]) + lines[|lines| - 1]
  }

  /** The enum body line of the i-th entry. */
  function EnumLine(i: nat, v: string): string {
    Indentation(1) + v + (if i == 0 then " = -1" else if i == 1 then " = 0" else "") + ",\n"
  }

  function EnumLines(items: seq<(string, string)>): (lines: seq<string>)
    ensures |lines| == |items|
    ensures forall i :: 0 <= i < |items| ==> lines[i] == EnumLine(i, items[i].1)
  {
    seq(|items|, i requires 0 <= i < |items| => EnumLine(i, items[i].1))
  }

  const EnumClosing: string := Indentation(1) + "NUM_TYPES\n"

  /** enumerate_ids_as_enum. */
  method EnumerateIdsAsEnum(items: seq<(string, string)>) returns (s: string)
    ensures s == ConcatAll(EnumLines(items)) + EnumClosing
  {
    s := "";
    var i := 0;
    while i < |items|
      invariant 0 <= i <= |items|
      invariant s == ConcatAll(EnumLines(items)[..i])
    {
      assert EnumLines(items)[..i + 1][..i] == EnumLines(items)[..i];
      s := s + Indentation(1);
      s := s + items[i].1;
      if i == 0 {
        s := s + " = -1";
      } else if i == 1 {
        s := s + " = 0";
      }
      s := s + ",\n";
      i := i + 1;
    }
    assert EnumLines(items)[..|items|] == EnumLines(items);
    s := s + Indentation(1);
    s := s + "NUM_TYPES\n";
  }

  /** The binding line of one entry. */
  function BindingLine(typeName: string, k: string, v: string): string {
    Indentation(2) + "{ " + typeName + "::" + v + ", " + "\"" + k + "\" },\n"
  }

  function BindingLines(items: seq<(string, string)>, typeName: string): (lines: seq<string>)
    ensures |lines| == |items|
    ensures forall i :: 0 <= i < |items| ==> lines[i] == BindingLine(typeName, items[i].0, items[i].1)
  {
    seq(|items|, i requires 0 <= i < |items| => BindingLine(typeName, items[i].0, items[i].1))
  }

  /** get_enum_bindings. */
  method GetEnumBindings(items: seq<(string, string)>, typeName: string) returns (s: string)
    ensures s == ConcatAll(BindingLines(items, typeName))
  {
    s := "";
    var i := 0;
    while i < |items|
      invariant 0 <= i <= |items|
      invariant s == ConcatAll(BindingLines(items, typeName)[..i])
    {
      assert BindingLines(items, typeName)[..i + 1][..i] == BindingLines(items, typeName)[..i];
      s := s + (Indentation(2) + "{ " + typeName + "::" + items[i].1 + ", " + "\"" + items[i].0 + "\" },\n");
      i := i + 1;
    }
    assert BindingLines(items, typeName)[..|items|] == BindingLines(items, typeName);
  }

  /** get_binding_macro, given the binding lines. */
  function BindingMacro(typeName: string, bindings: string): string {
    "NLOHMANN_JSON_SERIALIZE_ENUM(" + typeName + ",\n" + Indentation(1) + "{\n" +
    bindings + Indentation(1) + "});\n"
  }

  /** The macro opens with the type's name and an indented brace, closes with an
      indented `});`, and holds exactly the binding lines in between. */
  lemma BindingMacroShape(typeName: string, bindings: string)
    ensures var m := BindingMacro(typeName, bindings);
      var opening := "NLOHMANN_JSON_SERIALIZE_ENUM(" + typeName + ",\n    {\n";
      |m| == |opening| + |bindings| + 8 &&
      m[..|opening|] == opening &&
      m[|opening|..|m| - 8] == bindings &&
      m[|m| - 8..] == "    });\n"
  {
    assert Indentation(1) == "    ";
    var opening := "NLOHMANN_JSON_SERIALIZE_ENUM(" + typeName + ",\n    {\n";
    assert BindingMacro(typeName, bindings) == opening + bindings + "    });\n";
  }

  function NewlineCount(s: string): nat {
    if s == [] then 0 else NewlineCount(s[..|s| - 1]) + (if s[|s| - 1] == '\n' then 1 else 0)
  }

  lemma {:induction false} NewlineCountAppend(a: string, b: string)
    ensures NewlineCount(a + b) == NewlineCount(a) + NewlineCount(b)
  {
    if b == [] {
      assert a + b == a;
    } else {
      assert (a + b)[..|a + b| - 1] == a + b[..|b| - 1];
      NewlineCountAppend(a, b[..|b| - 1]);
    }
  }

  lemma {:induction false} NewlineCountNone(s: string)
    requires forall i :: 0 <= i < |s| ==> s[i] != '\n'
    ensures NewlineCount(s) == 0
  {
    if s != [] {
      NewlineCountNone(s[..|s| - 1]);
    }
  }

  predicate SingleLine(s: string) {
    forall i :: 0 <= i < |s| ==> s[i] != '\n'
  }

  /** Each line ends in its only newline. */
  lemma {:induction false} LinesCount(lines: seq<string>)
    requires forall i :: 0 <= i < |lines| ==>
      |lines[i]| > 0 && lines[i][|lines[i]| - 1] == '\n' && SingleLine(lines[i][..|lines[i]| - 1])
    ensures NewlineCount(ConcatAll(lines)) == |lines|
  {
    if lines != [] {
      var last := lines[|lines| - 1];
      LinesCount(lines[..|lines| - 1]);
      NewlineCountAppend(ConcatAll(lines[..|lines| - 1]), last);
      NewlineCountNone(last[..|last| - 1]);
      assert last == last[..|last| - 1] + "\n";
      NewlineCountAppend(last[..|last| - 1], "\n");
    }
  }

  /** The enum body has exactly one line per entry plus the NUM_TYPES line, when no
      enum name contains a newline. */
  lemma EnumBodyLineCount(items: seq<(string, string)>)
    requires forall i :: 0 <= i < |items| ==> SingleLine(items[i].1)
    ensures NewlineCount(ConcatAll(EnumLines(items)) + EnumClosing) == |items| + 1
  {
    var lines := EnumLines(items);
    forall i | 0 <= i < |lines|
      ensures |lines[i]| > 0 && lines[i][|lines[i]| - 1] == '\n' && SingleLine(lines[i][..|lines[i]| - 1])
    {
      var init := Indentation(1) + items[i].1 + (if i == 0 then " = -1" else if i == 1 then " = 0" else "") + ",";
      assert lines[i] == init + "\n";
      assert lines[i][..|lines[i]| - 1] == init;
    }
    LinesCount(lines);
    NewlineCountAppend(ConcatAll(lines), EnumClosing);
    assert EnumClosing == Indentation(1) + "NUM_TYPES" + "\n";
    NewlineCountAppend(Indentation(1) + "NUM_TYPES", "\n");
    NewlineCountNone(Indentation(1) + "NUM_TYPES");
  }

  /** Exactly one binding line per entry, when neither type name, key nor enum
      name contains a newline. */
  lemma BindingsLineCount(items: seq<(string, string)>, typeName: string)
    requires SingleLine(typeName)
    requires forall i :: 0 <= i < |items| ==> SingleLine(items[i].0) && SingleLine(items[i].1)
    ensures NewlineCount(ConcatAll(BindingLines(items, typeName))) == |items|
  {
    var lines := BindingLines(items, typeName);
    forall i | 0 <= i < |lines|
      ensures |lines[i]| > 0 && lines[i][|lines[i]| - 1] == '\n' && SingleLine(lines[i][..|lines[i]| - 1])
    {
      var init := Indentation(2) + "{ " + typeName + "::" + items[i].1 + ", " + "\"" + items[i].0 + "\" },";
      assert lines[i] == init + "\n";
      assert lines[i][..|lines[i]| - 1] == init;
    }
    LinesCount(lines);
  }

  // ---------------------------------------------------------------- the generated header

  lemma LowercaseIds()
    ensures EnumIdOf("none") == "NONE"
    ensures EnumIdOf("goblin") == "GOBLIN"
    ensures EnumIdOf("skeleton") == "SKELETON"
    ensures EnumIdOf("dragon") == "DRAGON"
    ensures EnumIdOf("zombie") == "ZOMBIE"
  {
    EnumIdWithoutUpper("none");
    EnumIdWithoutUpper("goblin");
    EnumIdWithoutUpper("skeleton");
    EnumIdWithoutUpper("dragon");
    EnumIdWithoutUpper("zombie");
  }

  /** Two camelCase treasure ids and their names in EnumDataBindings.h. */
  lemma RegenerationRingId()
    ensures EnumIdOf("regenerationRing") == "REGENERATION_RING"
  {
    EnumIdOfAppend("regeneration", "Ring");
    EnumIdOfAppend("R", "ing");
    EnumIdWithoutUpper("regeneration");
    EnumIdWithoutUpper("ing");
    assert EnumIdOf("R") == "_R" by {
      assert "R"[..0] == [];
    }
    assert "regeneration" + "Ring" == "regenerationRing";
    assert "R" + "ing" == "Ring";
  }

  /** A name with an uppercase letter after each separator piece. */
  lemma CapitalizedPiece(c: char, rest: string)
    requires IsUpper(c)
    requires forall i :: 0 <= i < |rest| ==> !IsUpper(rest[i])
    ensures EnumIdOf([c] + rest) == "_" + [c] + UpperAll(rest)
  {
    EnumIdOfAppend([c], rest);
    EnumIdWithoutUpper(rest);
    assert [c][..0] == [];
  }

  lemma OfDestructionPiece()
    ensures EnumIdOf("OfDestruction") == "_OF_DESTRUCTION"
  {
    EnumIdOfAppend("Of", "Destruction");
    CapitalizedPiece('O', "f");
    CapitalizedPiece('D', "estruction");
    assert "Of" + "Destruction" == "OfDestruction";
    assert ['O'] + "f" == "Of";
    assert ['D'] + "estruction" == "Destruction";
    assert UpperAll("f") == "F";
    assert UpperAll("estruction") == "ESTRUCTION";
  }

  lemma AmuletOfDestructionId()
    ensures EnumIdOf("amuletOfDestruction") == "AMULET_OF_DESTRUCTION"
  {
    EnumIdOfAppend("amulet", "OfDestruction");
    EnumIdWithoutUpper("amulet");
    OfDestructionPiece();
    assert "amulet" + "OfDestruction" == "amuletOfDestruction";
    assert UpperAll("amulet") == "AMULET";
  }

  /** The monster type ids in data order, added to the seeded map and converted,
      give the MonsterType entries of EnumDataBindings.h in order. */
  lemma MonsterItemsWitness()
    ensures AddKeys(["none"], ["goblin", "skeleton", "dragon", "zombie"]) ==
            ["none", "goblin", "skeleton", "dragon", "zombie"]
    ensures Converted(["none", "goblin", "skeleton", "dragon", "zombie"]) == MonsterItems
  {
    LowercaseIds();
  }

  const MonsterItems: seq<(string, string)> :=
    [("none", "NONE"), ("goblin", "GOBLIN"), ("skeleton", "SKELETON"), ("dragon", "DRAGON"), ("zombie", "ZOMBIE")]

  /** Those entries give the MonsterType enum body lines of EnumDataBindings.h. */
  lemma MonsterEnumWitness()
    ensures |EnumLines(MonsterItems)| == 5
    ensures EnumLines(MonsterItems)[0] == "    NONE = -1,\n"
    ensures EnumLines(MonsterItems)[1] == "    GOBLIN = 0,\n"
    ensures EnumLines(MonsterItems)[2] == "    SKELETON,\n"
    ensures EnumLines(MonsterItems)[3] == "    DRAGON,\n"
    ensures EnumLines(MonsterItems)[4] == "    ZOMBIE,\n"
    ensures EnumClosing == "    NUM_TYPES\n"
  {
    assert Indentation(1) == "    ";
  }

  /** ... and, one per entry, the lines of its MonsterType binding macro ... */
  lemma MonsterBindingsWitness()
    ensures BindingLines(MonsterItems, "MonsterType") == [
      BindingLine("MonsterType", "none", "NONE"),
      BindingLine("MonsterType", "goblin", "GOBLIN"),
      BindingLine("MonsterType", "skeleton", "SKELETON"),
      BindingLine("MonsterType", "dragon", "DRAGON"),
      BindingLine("MonsterType", "zombie", "ZOMBIE")
    ]
  {
  }

  /** ... each of which reads as in the header, e.g. the skeleton's. */
  lemma BindingLineText(typeName: string, k: string, v: string)
    ensures BindingLine(typeName, k, v) == "        { " + typeName + "::" + v + ", \"" + k + "\" },\n"
  {
    assert Indentation(2) == "        ";
  }

  lemma SkeletonBindingWitness()
    ensures BindingLine("MonsterType", "skeleton", "SKELETON") ==
            "        { MonsterType::SKELETON, \"skeleton\" },\n"
  {
    BindingLineText("MonsterType", "skeleton", "SKELETON");
  }
}
