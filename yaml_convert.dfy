/** The conversion of the interpreter's flat configuration map into the nested map written out
    as YAML (yaml/convert.go). A key `section.field` is stored as `field` inside the table
    `section`; a key without a dot is stored at the top level. Keys with two or more dots and
    values that are not string, int or bool are refused. */
module YamlConvert {
  import opened Wrappers
  import opened Strings

  /** A value of the interpreter's map: the three supported kinds, or a value of any other
      type, known by the name `reflect.TypeOf` gives it. */
  datatype AnkoValue = AStr(s: string) | AInt(i: int) | ABool(b: bool) | AOther(typeName: string)

  /** A value of the output map: a scalar, or an inner map. */
  datatype Node = Str(s: string) | Int(i: int) | Bool(b: bool) | Table(entries: map<string, Node>)

  /** Two errors of `convert`, plus the failed type assertion at yaml/convert.go:32 (a run-time
      panic in Go) when a section name is already bound to a scalar of Go type `found`. */
  datatype ConvertError = TooDeep(key: string) | UnsupportedType(typeName: string) | NotATable(section: string, found: string)

  /** The error text: the two `fmt.Errorf` messages, and the run-time panic's message. */
  function Message(e: ConvertError): string {
    match e
    case TooDeep(key) => "key " + key + " is too deep"
    case UnsupportedType(t) => "unsupported type " + t
    case NotATable(_, found) => "interface conversion: interface {} is " + found + ", not map[string]interface {}"
  }

  /** Different errors have different texts, except that the panic text does not name the
      section. */
  lemma MessageIdentifies(e1: ConvertError, e2: ConvertError)
    ensures Message(e1) == Message(e2) ==> e1 == e2 || (e1.NotATable? && e2.NotATable? && e1.found == e2.found)
  {
    var m1, m2 := Message(e1), Message(e2);
    if m1 == m2 {
      assert m1[0] == m2[0];
      match e1
      case TooDeep(k1) =>
        assert m1[4..|m1| - 12] == k1;
        assert m2[4..|m2| - 12] == e2.key;
      case UnsupportedType(t1) =>
        assert m1[17..] == t1;
        assert m2[17..] == e2.typeName;
      case NotATable(_, f1) =>
        assert m1[38..|m1| - 29] == f1;
        assert m2[38..|m2| - 29] == e2.found;
    }
  }

  /** The Go type name of a stored value, as a failed type assertion reports it. */
  function GoTypeName(n: Node): string {
    match n
    case Str(_) => "string"
    case Int(_) => "int"
    case Bool(_) => "bool"
    case Table(_) => "map[string]interface {}"
  }

  /** The node a supported value is stored as; `None` for the unsupported kinds. */
  function ScalarOf(v: AnkoValue): Option<Node> {
    match v
    case AStr(s) => Some(Str(s))
    case AInt(i) => Some(Int(i))
    case ABool(b) => Some(Bool(b))
    case AOther(_) => None
  }

  /** `convert(yamlMap, key, value)`: stores one entry into `m`. Returns the map as `convert`
      leaves it, and the error it reports. The inner map of a section is created before the
      field is stored, so it stays (empty) even when storing the field fails. */
  function ConvertEntry(m: map<string, Node>, key: string, value: AnkoValue): (r: (map<string, Node>, Option<ConvertError>))
    ensures r.1.None? ==> '.' !in key || |Split(key, '.')| == 2
    ensures r.1.None? ==> ScalarOf(value).Some?
    decreases if '.' in key then 1 else 0
  {
    if '.' in key then
      var keys := Split(key, '.');
      if |keys| > 2 then (m, Some(TooDeep(key)))
      else
        var m1 := if keys[0] in m then m else m[keys[0] := Table(map[])];
        match m1[keys[0]]
        case Table(inner) =>
          var stored := ConvertEntry(inner, keys[1], value);
          (m1[keys[0] := Table(stored.0)], stored.1)
        case _ => (m1, Some(NotATable(keys[0], GoTypeName(m1[keys[0]]))))
    else
      match value
      case AStr(s) => (m[key := Str(s)], None)
      case AInt(i) => (m[key := Int(i)], None)
      case ABool(b) => (m[key := Bool(b)], None)
      case AOther(t) => (m, Some(UnsupportedType(t)))
  }

  // ---------------------------------------------------------------- the shape of a key

  datatype KeyShape = Flat | Nested(section: string, field: string) | Deep

  /** How `convert` reads a key: without a dot, as `section.field`, or with too many dots. */
  function ShapeOf(key: string): (shape: KeyShape)
    ensures shape.Nested? ==> '.' !in shape.section && '.' !in shape.field
  {
    if '.' !in key then Flat
    else
      var parts := Split(key, '.');
      if |parts| > 2 then Deep else Nested(parts[0], parts[1])
  }

  /** A key of two dot-free parts joined by one dot reads as that section and field. */
  lemma ShapeOfPair(section: string, field: string)
    requires '.' !in section && '.' !in field
    ensures ShapeOf(section + "." + field) == Nested(section, field)
  {
    SplitPair(section, '.', field);
    assert '.' in section + "." + field by { assert (section + "." + field)[|section|] == '.'; }
  }

  /** A key with two or more dots is too deep. */
  lemma ShapeOfDeep(section: string, field: string, rest: string)
    requires '.' !in section && '.' !in field
    ensures ShapeOf(section + "." + field + "." + rest) == Deep
  {
    var key := section + "." + field + "." + rest;
    assert key == section + ['.'] + (field + "." + rest);
    SplitCons(section, '.', field + "." + rest);
    assert field + "." + rest == field + ['.'] + rest;
    SplitCons(field, '.', rest);
    assert key[|section|] == '.';
  }

  /** A nested key is determined by its section and field. */
  lemma NestedJoin(key: string)
    requires ShapeOf(key).Nested?
    ensures key == ShapeOf(key).section + "." + ShapeOf(key).field
  {
    JoinSplit(key, '.');
    var parts := Split(key, '.');
    assert parts[1..] == [parts[1]];
  }

  /** The inner map stored under `section`, or the empty map `convert` would create. */
  function TableAt(m: map<string, Node>, section: string): map<string, Node> {
    if section in m && m[section].Table? then m[section].entries else map[]
  }

  /** What storing one entry does, by the shape of its key. */
  lemma ConvertEntryByShape(m: map<string, Node>, key: string, value: AnkoValue)
    ensures ShapeOf(key).Flat? && ScalarOf(value).Some? ==>
              ConvertEntry(m, key, value) == (m[key := ScalarOf(value).value], None)
    ensures ShapeOf(key).Flat? && ScalarOf(value).None? ==>
              ConvertEntry(m, key, value) == (m, Some(UnsupportedType(value.typeName)))
    ensures ShapeOf(key).Deep? ==> ConvertEntry(m, key, value) == (m, Some(TooDeep(key)))
    ensures ShapeOf(key).Nested? && ShapeOf(key).section in m && !m[ShapeOf(key).section].Table? ==>
              ConvertEntry(m, key, value) == (m, Some(NotATable(ShapeOf(key).section, GoTypeName(m[ShapeOf(key).section]))))
    ensures ShapeOf(key).Nested? && (ShapeOf(key).section !in m || m[ShapeOf(key).section].Table?) ==>
              var a, b := ShapeOf(key).section, ShapeOf(key).field;
              ConvertEntry(m, key, value) ==
                if ScalarOf(value).Some? then (m[a := Table(TableAt(m, a)[b := ScalarOf(value).value])], None)
                else (m[a := Table(TableAt(m, a))], Some(UnsupportedType(value.typeName)))
  {
    if ShapeOf(key).Nested? {
      var a, b := ShapeOf(key).section, ShapeOf(key).field;
      var m1 := if a in m then m else m[a := Table(map[])];
      if m1[a].Table? {
        var inner := TableAt(m, a);
        assert m1[a].entries == inner;
        var stored := ConvertEntry(inner, b, value);
        assert ConvertEntry(m, key, value) == (m1[a := Table(stored.0)], stored.1);
        assert '.' !in b;
        if ScalarOf(value).Some? {
          assert stored == (inner[b := ScalarOf(value).value], None);
        } else {
          assert stored == (inner, Some(UnsupportedType(value.typeName)));
        }
        assert m1[a := Table(stored.0)] == m[a := Table(stored.0)];
      }
    }
  }

  /** A top-level key whose value is a string, int or bool is stored as that value. */
  lemma FlatKeyStored(m: map<string, Node>, key: string, value: AnkoValue)
    requires '.' !in key && ScalarOf(value).Some?
    ensures ConvertEntry(m, key, value) == (m[key := ScalarOf(value).value], None)
  {
  }

  /** `section.field` stores the value at `out[section][field]`; the section's inner map is
      created on first use and keeps the fields stored before. */
  lemma NestedKeyStored(m: map<string, Node>, section: string, field: string, value: AnkoValue)
    requires '.' !in section && '.' !in field && ScalarOf(value).Some?
    requires section !in m || m[section].Table?
    ensures ConvertEntry(m, section + "." + field, value).1 == None
    ensures var out := ConvertEntry(m, section + "." + field, value).0;
            && out == m[section := Table(TableAt(m, section)[field := ScalarOf(value).value])]
            && (forall f :: f in TableAt(m, section) && f != field ==> f in out[section].entries && out[section].entries[f] == TableAt(m, section)[f])
  {
    ShapeOfPair(section, field);
    ConvertEntryByShape(m, section + "." + field, value);
  }

  /** A key with more than two dot-separated parts fails as too deep and stores nothing. */
  lemma DeepKeyRefused(m: map<string, Node>, section: string, field: string, rest: string, value: AnkoValue)
    requires '.' !in section && '.' !in field
    ensures ConvertEntry(m, section + "." + field + "." + rest, value) == (m, Some(TooDeep(section + "." + field + "." + rest)))
  {
    ShapeOfDeep(section, field, rest);
    ConvertEntryByShape(m, section + "." + field + "." + rest, value);
  }

  /** The key the accompanying test expects to nest two levels deep is refused by the code. */
  lemma NowPlayingTitleRefused()
    ensures ConvertEntry(map[], "color.now_playing.title", AStr("magenta")) == (map[], Some(TooDeep("color.now_playing.title")))
  {
    assert "color.now_playing.title" == "color" + "." + "now_playing" + "." + "title";
    DeepKeyRefused(map[], "color", "now_playing", "title", AStr("magenta"));
  }

  /** With a bare key `a` and a key `a.b` in one map the outcome depends on iteration order:
      `a.b` then `a` ends with `a` bound to the scalar, `a` then `a.b` fails the type assertion. */
  lemma CollisionDependsOnOrder()
    ensures var first := ConvertEntry(map[], "a.b", AInt(1));
            first.1 == None && ConvertEntry(first.0, "a", AInt(2)) == (map["a" := Int(2)], None)
    ensures var first := ConvertEntry(map[], "a", AInt(2));
            first.1 == None && ConvertEntry(first.0, "a.b", AInt(1)) == (map["a" := Int(2)], Some(NotATable("a", "int")))
  {
    ShapeOfPair("a", "b");
    assert "a" + "." + "b" == "a.b";
    ConvertEntryByShape(map[], "a.b", AInt(1));
    ConvertEntryByShape(map["a" := Int(2)], "a.b", AInt(1));
    var first := ConvertEntry(map[], "a.b", AInt(1));
    assert first.0["a" := Int(2)] == map["a" := Int(2)];
  }

  // ---------------------------------------------------------------- the whole map

  /** An entry `convert` accepts on its own: at most one dot, a supported value. */
  predicate Accepted(key: string, value: AnkoValue) {
    !ShapeOf(key).Deep? && ScalarOf(value).Some?
  }

  /** The error an entry that is not accepted is reported with. */
  function EntryError(key: string, value: AnkoValue): ConvertError
    requires !Accepted(key, value)
  {
    if ShapeOf(key).Deep? then TooDeep(key) else UnsupportedType(value.typeName)
  }

  /** No bare key is also the section of a dotted key, so no entry can meet a section bound to a
      scalar (or overwrite a section with a scalar). */
  ghost predicate NoSectionClash(ankoMap: map<string, AnkoValue>) {
    forall k :: k in ankoMap && ShapeOf(k).Nested? ==> ShapeOf(k).section !in ankoMap
  }

  /** The top-level name an accepted key is stored under. */
  function HeadOf(key: string): string {
    if ShapeOf(key).Nested? then ShapeOf(key).section else key
  }

  ghost function Heads(keys: set<string>): set<string> {
    set k | k in keys :: HeadOf(k)
  }

  /** The fields stored under `section` by the nested keys among `keys`. */
  ghost function Fields(keys: set<string>, section: string): set<string> {
    set k | k in keys && ShapeOf(k).Nested? && ShapeOf(k).section == section :: ShapeOf(k).field
  }

  /** The top-level keys of `out` are the heads of the keys in `done`. */
  ghost predicate HeadsStored(out: map<string, Node>, done: set<string>) {
    out.Keys == Heads(done)
  }

  /** Every bare key in `done` holds its converted value. */
  ghost predicate FlatStored(out: map<string, Node>, ankoMap: map<string, AnkoValue>, done: set<string>)
    requires done <= ankoMap.Keys
  {
    forall k :: k in done && ShapeOf(k).Flat? ==> k in out && Some(out[k]) == ScalarOf(ankoMap[k])
  }

  /** Every nested key in `done` holds its converted value inside its section's table. */
  ghost predicate NestedStored(out: map<string, Node>, ankoMap: map<string, AnkoValue>, done: set<string>)
    requires done <= ankoMap.Keys
  {
    forall k :: k in done && ShapeOf(k).Nested? ==>
      var a, b := ShapeOf(k).section, ShapeOf(k).field;
      a in out && out[a].Table? && b in out[a].entries && Some(out[a].entries[b]) == ScalarOf(ankoMap[k])
  }

  /** Every table of `out` holds exactly the fields of its section among the keys in `done`. */
  ghost predicate FieldsExact(out: map<string, Node>, done: set<string>) {
    forall a :: a in out && out[a].Table? ==> out[a].entries.Keys == Fields(done, a)
  }

  /** `out` holds exactly the converted entries of `ankoMap` whose keys are in `done`. */
  ghost predicate Describes(out: map<string, Node>, ankoMap: map<string, AnkoValue>, done: set<string>)
    requires done <= ankoMap.Keys
  {
    HeadsStored(out, done) && FlatStored(out, ankoMap, done) && NestedStored(out, ankoMap, done) && FieldsExact(out, done)
  }

  lemma HeadsAdd(done: set<string>, k: string)
    ensures Heads(done + {k}) == Heads(done) + {HeadOf(k)}
  {
  }

  /** Under `NoSectionClash`, the next entry fails exactly when it is not accepted, and with
      its own error. */
  lemma StepOutcome(out: map<string, Node>, ankoMap: map<string, AnkoValue>, done: set<string>, k: string)
    requires done <= ankoMap.Keys && k in ankoMap && k !in done
    requires NoSectionClash(ankoMap) && HeadsStored(out, done) && NestedStored(out, ankoMap, done)
    ensures ConvertEntry(out, k, ankoMap[k]).1 == (if Accepted(k, ankoMap[k]) then None else Some(EntryError(k, ankoMap[k])))
  {
    var v := ankoMap[k];
    ConvertEntryByShape(out, k, v);
    if ShapeOf(k).Nested? && ShapeOf(k).section in out {
      var d :| d in done && HeadOf(d) == ShapeOf(k).section;
      assert ShapeOf(d).Nested?;
    }
  }

  /** Storing an accepted bare key extends the description by that key. */
  lemma StepFlat(out: map<string, Node>, ankoMap: map<string, AnkoValue>, done: set<string>, k: string)
    requires done <= ankoMap.Keys && k in ankoMap && k !in done
    requires NoSectionClash(ankoMap) && Describes(out, ankoMap, done)
    requires ShapeOf(k).Flat? && Accepted(k, ankoMap[k])
    ensures Describes(out[k := ScalarOf(ankoMap[k]).value], ankoMap, done + {k})
  {
    var out' := out[k := ScalarOf(ankoMap[k]).value];
    HeadsAdd(done, k);
    assert HeadsStored(out', done + {k});
    assert FlatStored(out', ankoMap, done + {k});
    FlatKeepsNested(out, ankoMap, done, k);
    FlatKeepsFields(out, ankoMap, done, k);
  }

  lemma FlatKeepsNested(out: map<string, Node>, ankoMap: map<string, AnkoValue>, done: set<string>, k: string)
    requires done <= ankoMap.Keys && k in ankoMap
    requires NoSectionClash(ankoMap) && NestedStored(out, ankoMap, done)
    requires ShapeOf(k).Flat? && Accepted(k, ankoMap[k])
    ensures NestedStored(out[k := ScalarOf(ankoMap[k]).value], ankoMap, done + {k})
  {
    forall d | d in done && ShapeOf(d).Nested? ensures ShapeOf(d).section != k { }
  }

  lemma FlatKeepsFields(out: map<string, Node>, ankoMap: map<string, AnkoValue>, done: set<string>, k: string)
    requires k in ankoMap && ShapeOf(k).Flat? && ScalarOf(ankoMap[k]).Some? && FieldsExact(out, done)
    ensures FieldsExact(out[k := ScalarOf(ankoMap[k]).value], done + {k})
  {
    var out' := out[k := ScalarOf(ankoMap[k]).value];
    forall a | a in out' && out'[a].Table? ensures out'[a].entries.Keys == Fields(done + {k}, a) {
      assert Fields(done + {k}, a) == Fields(done, a);
    }
  }

  /** Storing an accepted key `a.b` into the table `a` (created empty when missing) extends
      the description by that key. */
  lemma StepNested(out: map<string, Node>, ankoMap: map<string, AnkoValue>, done: set<string>, k: string)
    requires done <= ankoMap.Keys && k in ankoMap && k !in done
    requires NoSectionClash(ankoMap) && Describes(out, ankoMap, done)
    requires ShapeOf(k).Nested? && Accepted(k, ankoMap[k])
    requires ShapeOf(k).section !in out || out[ShapeOf(k).section].Table?
    ensures var a, b := ShapeOf(k).section, ShapeOf(k).field;
            Describes(out[a := Table(TableAt(out, a)[b := ScalarOf(ankoMap[k]).value])], ankoMap, done + {k})
  {
    var a, b := ShapeOf(k).section, ShapeOf(k).field;
    var out' := out[a := Table(TableAt(out, a)[b := ScalarOf(ankoMap[k]).value])];
    HeadsAdd(done, k);
    assert HeadsStored(out', done + {k});
    assert FlatStored(out', ankoMap, done + {k}) by {
      forall d | d in done && ShapeOf(d).Flat? ensures d != a { }
    }
    NestedStep(out, ankoMap, done, k);
    FieldsExactStep(out, ankoMap, done, k);
  }

  lemma NestedStep(out: map<string, Node>, ankoMap: map<string, AnkoValue>, done: set<string>, k: string)
    requires done <= ankoMap.Keys && k in ankoMap && k !in done
    requires NestedStored(out, ankoMap, done)
    requires ShapeOf(k).Nested? && Accepted(k, ankoMap[k])
    ensures var a, b := ShapeOf(k).section, ShapeOf(k).field;
            NestedStored(out[a := Table(TableAt(out, a)[b := ScalarOf(ankoMap[k]).value])], ankoMap, done + {k})
  {
    var a, b := ShapeOf(k).section, ShapeOf(k).field;
    forall d | d in done && ShapeOf(d).Nested? && ShapeOf(d).section == a
      ensures ShapeOf(d).field != b
    {
      if ShapeOf(d).field == b {
        NestedJoin(d);
        NestedJoin(k);
      }
    }
  }

  lemma FieldsExactStep(out: map<string, Node>, ankoMap: map<string, AnkoValue>, done: set<string>, k: string)
    requires done <= ankoMap.Keys && k in ankoMap && k !in done
    requires HeadsStored(out, done) && FieldsExact(out, done)
    requires ShapeOf(k).Nested? && Accepted(k, ankoMap[k])
    requires ShapeOf(k).section !in out || out[ShapeOf(k).section].Table?
    ensures var a, b := ShapeOf(k).section, ShapeOf(k).field;
            FieldsExact(out[a := Table(TableAt(out, a)[b := ScalarOf(ankoMap[k]).value])], done + {k})
  {
    FieldsStep(done, k);
  }

  /** Adding a nested key adds its field to its own section only. */
  lemma FieldsStep(done: set<string>, k: string)
    requires ShapeOf(k).Nested?
    ensures forall c :: Fields(done + {k}, c) == if c == ShapeOf(k).section then Fields(done, c) + {ShapeOf(k).field} else Fields(done, c)
  {
    forall c ensures Fields(done + {k}, c) == if c == ShapeOf(k).section then Fields(done, c) + {ShapeOf(k).field} else Fields(done, c) {
    }
  }

  /** Converting one more accepted entry extends a description of the entries done so far. */
  lemma StepDescribes(out: map<string, Node>, ankoMap: map<string, AnkoValue>, done: set<string>, k: string)
    requires done <= ankoMap.Keys && k in ankoMap && k !in done
    requires NoSectionClash(ankoMap) && Describes(out, ankoMap, done)
    ensures ConvertEntry(out, k, ankoMap[k]).1 == (if Accepted(k, ankoMap[k]) then None else Some(EntryError(k, ankoMap[k])))
    ensures Accepted(k, ankoMap[k]) ==> Describes(ConvertEntry(out, k, ankoMap[k]).0, ankoMap, done + {k})
  {
    StepOutcome(out, ankoMap, done, k);
    if Accepted(k, ankoMap[k]) {
      ConvertEntryByShape(out, k, ankoMap[k]);
      if ShapeOf(k).Flat? {
        StepFlat(out, ankoMap, done, k);
      } else {
        StepNested(out, ankoMap, done, k);
      }
    }
  }

  /** `Convert(ankoMap)`: converts the entries one by one, in the unspecified order of a Go map
      range, and returns at the first entry that fails, with that entry's error and the map
      as filled so far. */
  method Convert(ankoMap: map<string, AnkoValue>) returns (yamlMap: map<string, Node>, err: Option<ConvertError>)
    ensures err.None? ==> forall k :: k in ankoMap ==> Accepted(k, ankoMap[k])
    ensures NoSectionClash(ankoMap) ==> (err.None? <==> forall k :: k in ankoMap ==> Accepted(k, ankoMap[k]))
    ensures NoSectionClash(ankoMap) && err.None? ==> Describes(yamlMap, ankoMap, ankoMap.Keys)
    ensures NoSectionClash(ankoMap) && err.Some? ==>
              exists k :: k in ankoMap && !Accepted(k, ankoMap[k]) && err == Some(EntryError(k, ankoMap[k]))
                && Message(err.value) == if ShapeOf(k).Deep? then "key " + k + " is too deep"
                                         else "unsupported type " + ankoMap[k].typeName
  {
    yamlMap, err := map[], None;
    var remaining := ankoMap.Keys;
    ghost var done: set<string> := {};
    assert Heads(done) == {};
    while remaining != {}
      invariant done <= ankoMap.Keys && remaining == ankoMap.Keys - done
      invariant forall d :: d in done ==> Accepted(d, ankoMap[d])
      invariant NoSectionClash(ankoMap) ==> Describes(yamlMap, ankoMap, done)
      invariant err.None?
      decreases remaining
    {
      var k :| k in remaining;
      var v := ankoMap[k];
      if NoSectionClash(ankoMap) {
        StepDescribes(yamlMap, ankoMap, done, k);
      }
      var stored := ConvertEntry(yamlMap, k, v);
      yamlMap, err := stored.0, stored.1;
      if err.Some? {
        return;
      }
      done := done + {k};
      remaining := remaining - {k};
    }
  }
}
