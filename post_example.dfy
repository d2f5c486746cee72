/**
 * The files generated for the model `post` with `-f "vehicle, description, location"`:
 * the three dictionaries the field list compiles to and the blocks they
 * render to, as they appear in the model, validation and fixture files.
 */
module PostExample {
  import opened Wrappers
  import opened JsString
  import opened OrderedMap
  import opened Serializer
  import opened FieldSpec

  const PostFieldList := "vehicle, description, location"

  /** A required field of the default type, without a default. */
  function Plain(name: string): Field {
    Field(name, "String", true, None)
  }

  /** Three separator-free pieces joined by the separator split back into them. */
  lemma SplitThree(a: string, b: string, c: string, sep: char)
    requires sep !in a && sep !in b && sep !in c
    ensures Split(a + [sep] + b + [sep] + c, sep) == [a, b, c]
  {
    var pieces := [a, b, c];
    assert Join(pieces[2..], [sep]) == c;
    assert Join(pieces[1..], [sep]) == b + [sep] + c;
    assert Join(pieces, [sep]) == a + [sep] + b + [sep] + c;
    JoinSplit(pieces, sep);
  }

  lemma PostSplit()
    ensures Split(PostFieldList, ',') == ["vehicle", " description", " location"]
  {
    assert "vehicle" + [','] + " description" + [','] + " location" == PostFieldList;
    SplitThree("vehicle", " description", " location", ',');
  }

  lemma PlainClause(clause: string, name: string)
    requires |clause| == |name| + 1 && clause == " " + name
    requires |name| > 0 && !IsSpace(name[0]) && !IsSpace(name[|name| - 1])
    requires '|' !in name && '(' !in name && name[0] != '-'
    ensures ParseClause(clause) == Plain(name)
  {
    TrimUnique(clause, 1, |clause|);
    assert clause[1..|clause|] == name;
    Unmarked(clause);
  }

  lemma VehicleClause()
    ensures ParseClause("vehicle") == Plain("vehicle")
  {
    TrimOfTrimmed("vehicle");
    Unmarked("vehicle");
  }

  lemma DescriptionClause()
    ensures ParseClause(" description") == Plain("description")
  {
    PlainClause(" description", "description");
  }

  lemma LocationClause()
    ensures ParseClause(" location") == Plain("location")
  {
    PlainClause(" location", "location");
  }

  /** A list of three clauses compiles to the three fields they parse to. */
  lemma ClausesOfThree(fields: string, a: string, b: string, c: string, fa: Field, fb: Field, fc: Field)
    requires Split(fields, ',') == [a, b, c]
    requires ParseClause(a) == fa && ParseClause(b) == fb && ParseClause(c) == fc
    ensures Clauses(fields) == [fa, fb, fc]
  {
    var pieces, fs := Split(fields, ','), Clauses(fields);
    assert fs[0] == ParseClause(pieces[0]) && fs[1] == ParseClause(pieces[1]) && fs[2] == ParseClause(pieces[2]);
    Three(fs, fa, fb, fc);
  }

  lemma Three(s: seq<Field>, x: Field, y: Field, z: Field)
    requires |s| == 3 && s[0] == x && s[1] == y && s[2] == z
    ensures s == [x, y, z]
  {
  }

  /** The field list parses into three required fields of type `String`, in order. */
  lemma PostClauses()
    ensures Clauses(PostFieldList) == [Plain("vehicle"), Plain("description"), Plain("location")]
  {
    PostSplit();
    VehicleClause();
    DescriptionClause();
    LocationClause();
    ClausesOfThree(PostFieldList, "vehicle", " description", " location", Plain("vehicle"), Plain("description"), Plain("location"));
  }

  /** A clause whose name is new appends its entry to the dictionary. */
  lemma BuildSnoc<V>(fs: seq<Field>, f: Field, proj: Field -> V)
    requires f.name !in Names(fs)
    ensures Build(fs + [f], proj) == Build(fs, proj) + [(f.name, proj(f))]
  {
    var s := fs + [f];
    assert s[..|s| - 1] == fs;
    BuildKeys(fs, proj);
    DedupSpec(Names(fs));
    PutNew(Build(fs, proj), f.name, proj(f));
  }

  lemma BuildOne<V>(fa: Field, proj: Field -> V)
    ensures Build([fa], proj) == [(fa.name, proj(fa))]
  {
    assert [fa][..0] == [];
  }

  lemma BuildTwo<V>(fa: Field, fb: Field, proj: Field -> V)
    requires fa.name != fb.name
    ensures Build([fa, fb], proj) == [(fa.name, proj(fa)), (fb.name, proj(fb))]
  {
    BuildOne(fa, proj);
    assert Names([fa]) == [fa.name];
    BuildSnoc([fa], fb, proj);
    assert [fa] + [fb] == [fa, fb];
  }

  /** Three clauses with different names fill a dictionary with three entries, in clause order. */
  lemma BuildThree<V>(fa: Field, fb: Field, fc: Field, proj: Field -> V)
    requires fa.name != fb.name && fa.name != fc.name && fb.name != fc.name
    ensures Build([fa, fb, fc], proj) == [(fa.name, proj(fa)), (fb.name, proj(fb)), (fc.name, proj(fc))]
  {
    BuildTwo(fa, fb, proj);
    assert Names([fa, fb]) == [fa.name, fb.name];
    BuildSnoc([fa, fb], fc, proj);
    assert [fa, fb] + [fc] == [fa, fb, fc];
  }

  /** The block of a three-entry dictionary: the opening brace, one line per entry, the closing brace. */
  lemma BlockThree(d: Map<Value>, level: nat)
    requires |d| == 3
    ensures Block(d, level) == "{\n" + Line(d[0].0, Show(d[0].1, level + 1), level)
                                   + Line(d[1].0, Show(d[1].1, level + 1), level)
                                   + Line(d[2].0, Show(d[2].1, level + 1), level) + Tabs(level + 1) + "}"
  {
    var l0, l1, l2 := Line(d[0].0, Show(d[0].1, level + 1), level), Line(d[1].0, Show(d[1].1, level + 1), level),
                      Line(d[2].0, Show(d[2].1, level + 1), level);
    assert Lines(d, 1, level) == l0 by {
      assert Lines(d, 0, level) == "";
    }
    assert Lines(d, 3, level) == l0 + l1 + l2;
    assert "{\n" + (l0 + l1 + l2) == "{\n" + l0 + l1 + l2;
  }

  lemma TabsSmall()
    ensures Tabs(1) == "\t" && Tabs(2) == "\t\t" && Tabs(3) == "\t\t\t"
  {
  }

  lemma EntryLines(d: Map<Value>)
    requires d == [("type", Str("String")), ("required", Str("true")), ("trim", Str("true"))]
    ensures Block(d, 1) == "{\n" + Line("type", "String", 1) + Line("required", "true", 1) + Line("trim", "true", 1) + Tabs(2) + "}"
  {
    BlockThree(d, 1);
  }

  lemma TypeLine()
    ensures Line("type", "String", 1) == "\t\t\ttype: String,\n"
  {
    TabsSmall();
  }

  lemma RequiredLine()
    ensures Line("required", "true", 1) == "\t\t\trequired: true,\n"
  {
    TabsSmall();
  }

  lemma TrimLine()
    ensures Line("trim", "true", 1) == "\t\t\ttrim: true,\n"
  {
    TabsSmall();
  }

  /** The schema entry of a required `String` field without default, as nested in the model file. */
  lemma StringFieldEntry(name: string)
    ensures Show(SchemaEntry(Plain(name)), 1)
         == "{\n" + "\t\t\ttype: String,\n" + "\t\t\trequired: true,\n" + "\t\t\ttrim: true,\n" + "\t\t}"
  {
    var d: Map<Value> := [("type", Str("String")), ("required", Str("true")), ("trim", Str("true"))];
    assert SchemaEntry(Plain(name)) == Obj(d);
    EntryLines(d);
    TypeLine();
    RequiredLine();
    TrimLine();
    TabsSmall();
  }

  /** The text the schema entry of a plain `String` field renders to inside the model's block. */
  function StringEntryText(): string {
    "{\n" + "\t\t\ttype: String,\n" + "\t\t\trequired: true,\n" + "\t\t\ttrim: true,\n" + "\t\t}"
  }

  /** A line of a level-0 block. */
  lemma KeyLine(key: string, text: string, head: string)
    requires head == "\t\t" + key + ": "
    ensures Line(key, text, 0) == head + text + ",\n"
  {
    TabsSmall();
  }

  /** Regrouping the lines of a three-entry block. */
  lemma Regroup(open: string, a: string, x: string, b: string, y: string, c: string, z: string, close: string)
    ensures open + (a + x + ",\n") + (b + y + ",\n") + (c + z + ",\n") + close
         == open + a + x + ",\n" + b + y + ",\n" + c + z + ",\n" + close
  {
  }

  /** A level-0 block of three entries whose values show as the given texts. */
  lemma TopBlock(k1: string, v1: Value, t1: string, h1: string, k2: string, v2: Value, t2: string, h2: string,
                 k3: string, v3: Value, t3: string, h3: string)
    requires Show(v1, 1) == t1 && Show(v2, 1) == t2 && Show(v3, 1) == t3
    requires h1 == "\t\t" + k1 + ": " && h2 == "\t\t" + k2 + ": " && h3 == "\t\t" + k3 + ": "
    ensures Block([(k1, v1), (k2, v2), (k3, v3)], 0)
         == "{\n" + h1 + t1 + ",\n" + h2 + t2 + ",\n" + h3 + t3 + ",\n" + "\t}"
  {
    BlockThree([(k1, v1), (k2, v2), (k3, v3)], 0);
    KeyLine(k1, t1, h1);
    KeyLine(k2, t2, h2);
    KeyLine(k3, t3, h3);
    TabsSmall();
    Regroup("{\n", h1, t1, h2, t2, h3, t3, "\t}");
  }

  /** Each of the three dictionaries holds one entry per field, in the order of the list. */
  lemma PostDictionary<V>(proj: Field -> V)
    ensures Build(Clauses(PostFieldList), proj)
         == [("vehicle", proj(Plain("vehicle"))), ("description", proj(Plain("description"))), ("location", proj(Plain("location")))]
  {
    PostClauses();
    BuildThree(Plain("vehicle"), Plain("description"), Plain("location"), proj);
  }

  lemma PostHeads()
    ensures "\t\t" + "vehicle" + ": " == "\t\tvehicle: "
    ensures "\t\t" + "description" + ": " == "\t\tdescription: "
    ensures "\t\t" + "location" + ": " == "\t\tlocation: "
  {
  }

  /**
   * The block the model template's `{{FIELDS}}` is replaced with for the field
   * list `vehicle, description, location`.
   */
  lemma PostModelBlock()
    ensures Block(Build(Clauses(PostFieldList), SchemaEntry), 0)
         == "{\n" + "\t\tvehicle: " + StringEntryText() + ",\n"
                  + "\t\tdescription: " + StringEntryText() + ",\n"
                  + "\t\tlocation: " + StringEntryText() + ",\n" + "\t}"
  {
    PostDictionary(SchemaEntry);
    PostHeads();
    StringFieldEntry("vehicle");
    StringFieldEntry("description");
    StringFieldEntry("location");
    TopBlock("vehicle", SchemaEntry(Plain("vehicle")), StringEntryText(), "\t\tvehicle: ",
             "description", SchemaEntry(Plain("description")), StringEntryText(), "\t\tdescription: ",
             "location", SchemaEntry(Plain("location")), StringEntryText(), "\t\tlocation: ");
  }

  lemma StringLower()
    ensures Lower("String") == "string"
  {
  }

  /** A plain field is validated as a Joi string and faked with a random word. */
  lemma PlainRuleAndFaker(name: string)
    ensures Rule(Plain(name)) == Str("Joi.string()")
    ensures Faker(Plain(name)) == Str("faker.random.word()")
  {
    StringLower();
    assert "Joi." + "string" + "()" == "Joi.string()";
  }

  /**
   * The block the validation template's `{{TYPES}}` is replaced with for the
   * field list `vehicle, description, location`.
   */
  lemma PostValidationBlock()
    ensures Block(Build(Clauses(PostFieldList), Rule), 0)
         == "{\n" + "\t\tvehicle: " + "Joi.string()" + ",\n"
                  + "\t\tdescription: " + "Joi.string()" + ",\n"
                  + "\t\tlocation: " + "Joi.string()" + ",\n" + "\t}"
  {
    PostDictionary(Rule);
    PostHeads();
    PlainRuleAndFaker("vehicle");
    PlainRuleAndFaker("description");
    PlainRuleAndFaker("location");
    TopBlock("vehicle", Rule(Plain("vehicle")), "Joi.string()", "\t\tvehicle: ",
             "description", Rule(Plain("description")), "Joi.string()", "\t\tdescription: ",
             "location", Rule(Plain("location")), "Joi.string()", "\t\tlocation: ");
  }

  /**
   * The block the fixture template's `{{DATA}}` is replaced with for the
   * field list `vehicle, description, location`.
   */
  lemma PostFixtureBlock()
    ensures Block(Build(Clauses(PostFieldList), Faker), 0)
         == "{\n" + "\t\tvehicle: " + "faker.random.word()" + ",\n"
                  + "\t\tdescription: " + "faker.random.word()" + ",\n"
                  + "\t\tlocation: " + "faker.random.word()" + ",\n" + "\t}"
  {
    PostDictionary(Faker);
    PostHeads();
    PlainRuleAndFaker("vehicle");
    PlainRuleAndFaker("description");
    PlainRuleAndFaker("location");
    TopBlock("vehicle", Faker(Plain("vehicle")), "faker.random.word()", "\t\tvehicle: ",
             "description", Faker(Plain("description")), "faker.random.word()", "\t\tdescription: ",
             "location", Faker(Plain("location")), "faker.random.word()", "\t\tlocation: ");
  }

  /** The block of a four-entry dictionary, as for a field with a default. */
  lemma BlockFour(d: Map<Value>, level: nat)
    requires |d| == 4
    ensures Block(d, level) == "{\n" + Line(d[0].0, Show(d[0].1, level + 1), level)
                                   + Line(d[1].0, Show(d[1].1, level + 1), level)
                                   + Line(d[2].0, Show(d[2].1, level + 1), level)
                                   + Line(d[3].0, Show(d[3].1, level + 1), level) + Tabs(level + 1) + "}"
  {
    var l0, l1 := Line(d[0].0, Show(d[0].1, level + 1), level), Line(d[1].0, Show(d[1].1, level + 1), level);
    var l2, l3 := Line(d[2].0, Show(d[2].1, level + 1), level), Line(d[3].0, Show(d[3].1, level + 1), level);
    assert Lines(d, 1, level) == l0 by {
      assert Lines(d, 0, level) == "";
    }
    assert Lines(d, 2, level) == l0 + l1;
    assert Lines(d, 3, level) == l0 + l1 + l2;
    assert Lines(d, 4, level) == l0 + l1 + l2 + l3;
    assert "{\n" + (l0 + l1 + l2 + l3) == "{\n" + l0 + l1 + l2 + l3;
  }

  lemma BooleanTypeLine()
    ensures Line("type", "boolean", 1) == "\t\t\ttype: boolean,\n"
  {
    TabsSmall();
  }

  lemma NotRequiredLine()
    ensures Line("required", "false", 1) == "\t\t\trequired: false,\n"
  {
    TabsSmall();
  }

  lemma DefaultTrueLine()
    ensures Line("default", "'true'", 1) == "\t\t\tdefault: 'true',\n"
  {
    TabsSmall();
  }

  /** The schema entry of an optional field with a default renders `required: false` and the default last. */
  lemma OptionalDefaultEntry(d: Map<Value>)
    requires d == [("type", Str("boolean")), ("required", Bool(false)), ("trim", Str("true")), ("default", Str("'true'"))]
    ensures Block(d, 1) == "{\n" + "\t\t\ttype: boolean,\n" + "\t\t\trequired: false,\n" + "\t\t\ttrim: true,\n"
                              + "\t\t\tdefault: 'true',\n" + "\t\t}"
  {
    BlockFour(d, 1);
    BooleanTypeLine();
    NotRequiredLine();
    TrimLine();
    DefaultTrueLine();
    TabsSmall();
  }

  /**
   * The help text's `- isHuman(boolean)|true` gives the schema entry
   * `{ type: boolean, required: false, trim: true, default: 'true' }`.
   */
  lemma HelpIsHumanEntry()
    ensures Show(SchemaEntry(ParseClause("- isHuman(boolean)|true")), 1)
         == "{\n" + "\t\t\ttype: boolean,\n" + "\t\t\trequired: false,\n" + "\t\t\ttrim: true,\n"
            + "\t\t\tdefault: 'true',\n" + "\t\t}"
  {
    HelpIsHuman();
    HumanSchema();
    OptionalDefaultEntry([("type", Str("boolean")), ("required", Bool(false)), ("trim", Str("true")), ("default", Str("'true'"))]);
  }

  /** The schema entry of the optional `boolean` field `isHuman` with default `'true'`. */
  lemma HumanSchema()
    ensures SchemaEntry(Field("isHuman", "boolean", false, Some("'true'")))
         == Obj([("type", Str("boolean")), ("required", Bool(false)), ("trim", Str("true")), ("default", Str("'true'"))])
  {
  }
}
