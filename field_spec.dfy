/**
 * The field-specification compiler: the `-f` string is split on commas,
 * each clause is parsed into a field (optional marker `-`, default after
 * the first `|`, type between `(` and `)`), and in one pass three
 * dictionaries are filled: the schema (`fieldSet`), the Joi rules
 * (`validationTypes`) and the faker expressions (`testFakers`).
 */
module FieldSpec {
  import opened Wrappers
  import opened JsString
  import opened OrderedMap
  import opened Serializer

  /** One parsed clause; `trim` is always "true" and so is not stored. */
  datatype Field = Field(name: string, dataType: string, required: bool, default: Option<string>)

  /** A trimmed clause marked optional: its first character is `-`. */
  predicate IsOptional(clause: string) {
    |clause| > 0 && clause[0] == '-'
  }

  lemma NotInSlice(s: string, c: char, i: int, j: int)
    requires 0 <= i <= j <= |s| && c !in s
    ensures c !in s[i..j]
  {
  }

  lemma NotInTrim(s: string, c: char)
    requires c !in s
    ensures c !in Trim(s)
  {
    InTrim(s, c);
  }

  /** Lines 49-52: a leading `-` is dropped, with the white space after it. */
  function Undash(clause: string): (r: string)
    requires IsTrimmed(clause)
    ensures IsTrimmed(r)
    ensures forall c :: c !in clause ==> c !in r
  {
    if IsOptional(clause) then
      assert forall c :: c !in clause ==> c !in Trim(clause[1..]) by {
        forall c | c !in clause ensures c !in Trim(clause[1..]) {
          NotInSlice(clause, c, 1, |clause|);
          NotInTrim(clause[1..], c);
        }
      }
      Trim(clause[1..])
    else clause
  }

  /** Lines 54-56: everything after the first `|`, quoted. */
  function DefaultOf(undashed: string): (r: Option<string>)
    ensures r == None <==> '|' !in undashed
    ensures r.Some? ==> |r.value| >= 2 && r.value[0] == '\'' && r.value[|r.value| - 1] == '\''
  {
    var bar := IndexOf(undashed, '|');
    if bar > -1 then Some("'" + undashed[bar + 1..] + "'") else None
  }

  /** Line 57: the text before the first `|`, trimmed. */
  function BeforeDefault(undashed: string): (r: string)
    requires IsTrimmed(undashed)
    ensures IsTrimmed(r) && '|' !in r
    ensures forall c :: c !in undashed ==> c !in r
  {
    var bar := IndexOf(undashed, '|');
    if bar > -1 then
      assert forall c :: c !in undashed ==> c !in Trim(undashed[..bar]) by {
        forall c | c !in undashed ensures c !in Trim(undashed[..bar]) {
          NotInSlice(undashed, c, 0, bar);
          NotInTrim(undashed[..bar], c);
        }
      }
      NotInTrim(undashed[..bar], '|');
      Trim(undashed[..bar])
    else undashed
  }

  /** Lines 60-65: the text before the first `(` is the name, the text up to the first `)` the type. */
  function SplitType(typed: string): (r: (string, string))
    requires IsTrimmed(typed)
    ensures IsTrimmed(r.0) && '(' !in r.0 && ')' !in r.1
    ensures forall c :: c !in typed ==> c !in r.0
    ensures r.1 == "String" || forall c :: c !in typed ==> c !in r.1
  {
    var open := IndexOf(typed, '(');
    if open > -1 then
      var close := IndexOf(typed, ')');
      var dataType := Substr(typed, open + 1, close - (open + 1));
      assert dataType == [] || dataType == typed[open + 1..close];
      assert forall c :: c !in typed ==> c !in dataType by {
        forall c | c !in typed ensures c !in dataType {
          if dataType != [] { NotInSlice(typed, c, open + 1, close); }
        }
      }
      assert ')' !in dataType by {
        if dataType != [] { assert typed[open + 1..close] == typed[..close][open + 1..]; }
      }
      var name := Trim(typed[..open]);
      assert forall c :: c !in typed ==> c !in name by {
        forall c | c !in typed ensures c !in name {
          NotInSlice(typed, c, 0, open);
          NotInTrim(typed[..open], c);
        }
      }
      (name, dataType)
    else
      (typed, "String")
  }

  /**
   * The body of the `forEach` callback up to the dictionary writes: the
   * markers are stripped in order (`-`, then `|`, then `(`), and no clause
   * makes it fail.
   */
  function ParseClause(raw: string): (f: Field)
    ensures f.required <==> !IsOptional(Trim(raw))
    ensures IsTrimmed(f.name) && '|' !in f.name && '(' !in f.name
    ensures '|' !in f.dataType && ')' !in f.dataType
    ensures f.default.Some? ==> var v := f.default.value; |v| >= 2 && v[0] == '\'' && v[|v| - 1] == '\''
  {
    var clause := Trim(raw);
    var undashed := Undash(clause);
    var typed := BeforeDefault(undashed);
    var (name, dataType) := SplitType(typed);
    Field(name, dataType, !IsOptional(clause), DefaultOf(undashed))
  }

  /** Lines 54-65: the field read from a clause whose optional marker is already gone. */
  function FromUndashed(undashed: string, required: bool): Field
    requires IsTrimmed(undashed)
  {
    var (name, dataType) := SplitType(BeforeDefault(undashed));
    Field(name, dataType, required, DefaultOf(undashed))
  }

  /** White space around a clause does not change the field it gives. */
  lemma PadInvariant(w1: string, c: string, w2: string)
    requires SpaceIn(w1, 0, |w1|) && SpaceIn(w2, 0, |w2|)
    ensures ParseClause(w1 + c + w2) == ParseClause(c)
  {
    var s := w1 + c + w2;
    assert SpaceIn(s, 0, |w1|) by {
      forall m | 0 <= m < |w1| ensures IsSpace(s[m]) {
        assert s[m] == w1[m];
      }
    }
    assert SpaceIn(s, |w1| + |c|, |s|) by {
      forall m | |w1| + |c| <= m < |s| ensures IsSpace(s[m]) {
        assert s[m] == w2[m - |w1| - |c|];
      }
    }
    assert s[|w1|..|w1| + |c|] == c;
    TrimSlice(s, |w1|, |w1| + |c|);
  }

  /** A clause free of `|` and `(` is its own name, of type `"String"`, without a default. */
  lemma PlainUndashed(u: string, required: bool)
    requires IsTrimmed(u) && '|' !in u && '(' !in u
    ensures FromUndashed(u, required) == Field(u, "String", required, None)
  {
  }

  /**
   * Only one `-` is a marker: a dash put before an already marked clause
   * makes a field whose name keeps the second `-`.
   */
  lemma RepeatedMarker(c: string)
    requires IsOptional(Trim(c)) && '|' !in c && '(' !in c
    ensures ParseClause("-" + c) == Field(Trim(c), "String", false, None)
  {
    DashTrim(c);
    assert ("-" + TrimEnd(c))[1..] == TrimEnd(c);
    TrimAfterTrimEnd(c);
    NotInTrim(c, '|');
    NotInTrim(c, '(');
    ParseStages("-" + c);
    PlainUndashed(Trim(c), false);
  }

  /** `--x` is the optional field `-x`. */
  lemma DoubleDash()
    ensures ParseClause("--x") == Field("-x", "String", false, None)
  {
    assert "--x" == "-" + "-x";
    TrimOfTrimmed("-x");
    RepeatedMarker("-x");
  }

  /** A clause is read in two stages: the optional marker, then the rest. */
  lemma ParseStages(raw: string)
    ensures ParseClause(raw) == FromUndashed(Undash(Trim(raw)), !IsOptional(Trim(raw)))
  {
  }

  lemma NotInTrimStart(s: string, c: char)
    requires c !in s
    ensures c !in TrimStart(s)
  {
    NotInSlice(s, c, Lead(s), |s|);
  }

  /** Trimming `-c` keeps the dash and trims the end of `c`. */
  lemma DashTrim(c: string)
    ensures Trim("-" + c) == "-" + TrimEnd(c)
  {
    TrimAround([], '-', c);
    assert [] + ['-'] + c == "-" + c;
  }

  /** A clause `-c`, trimmed and undashed, is `c` trimmed. */
  lemma DashedClause(c: string)
    requires !IsOptional(Trim(c))
    ensures IsOptional(Trim("-" + c))
    ensures Undash(Trim("-" + c)) == Trim(c) == Undash(Trim(c))
  {
    DashTrim(c);
    var clause := "-" + TrimEnd(c);
    assert clause[1..] == TrimEnd(c);
    TrimAfterTrimEnd(c);
  }

  /** Line 49: a `-` in front marks the field optional and changes nothing else. */
  lemma OptionalMarker(c: string)
    requires !IsOptional(Trim(c))
    ensures ParseClause("-" + c) == ParseClause(c).(required := false)
  {
    DashedClause(c);
    ParseStages("-" + c);
    ParseStages(c);
  }

  /** The optional marker is seen alike whether or not the end of the clause is trimmed. */
  lemma OptionalTrimStart(a: string)
    ensures IsOptional(Trim(a)) == IsOptional(TrimStart(a))
  {
    if Lead(a) < |a| {
      assert Trim(a)[0] == a[Lead(a)] == TrimStart(a)[0];
    }
  }

  /** Lines 54-58 on a clause without its marker: the `|` splits it into type part and default. */
  lemma FromUndashedBar(t: string, d: string, required: bool)
    requires '|' !in t && IsTrimmed(t + "|" + d)
    ensures FromUndashed(t + "|" + d, required) == FromUndashed(Trim(t), required).(default := Some("'" + d + "'"))
  {
    var u := t + "|" + d;
    IndexOfAppend(t, '|', d);
    assert u[..|t|] == t && u[|t| + 1..] == d;
    NotInTrim(t, '|');
    TrimOfTrimmed(Trim(t));
  }

  /** A clause whose trimmed start is not `-`, with a `|` after `a`. */
  lemma PlainBarClause(a: string, b: string)
    requires '|' !in a && !IsOptional(TrimStart(a))
    ensures !IsOptional(Trim(a))
    ensures Trim(a + "|" + b) == TrimStart(a) + "|" + TrimEnd(b)
    ensures !IsOptional(Trim(a + "|" + b))
  {
    OptionalTrimStart(a);
    TrimAround(a, '|', b);
    var A := TrimStart(a);
    assert A != [] ==> (A + "|" + TrimEnd(b))[0] == A[0];
  }

  /** After the dash, the trimmed clause is the rest of its trimmed start with the end trimmed. */
  lemma DashedTrim(a: string)
    requires IsOptional(TrimStart(a))
    ensures IsOptional(Trim(a))
    ensures Trim(a)[1..] == TrimEnd(TrimStart(a)[1..])
  {
    OptionalTrimStart(a);
    var l, t := Lead(a), Tail(a);
    var u := TrimStart(a)[1..];
    assert l < t by { assert a[l] == '-'; }
    assert u == a[l + 1..];
    forall m | t - l - 1 <= m < |u| ensures IsSpace(u[m]) {
      assert u[m] == a[l + 1 + m];
    }
    assert 0 < t - l - 1 ==> u[t - l - 2] == a[t - 1];
    TailUnique(u, t - l - 1);
    assert Trim(a)[1..] == a[l + 1..t] == u[..t - l - 1];
  }

  /** A clause whose trimmed start is `-`, with a `|` after `a`. */
  lemma DashedBarClause(a: string, b: string)
    requires '|' !in a && IsOptional(TrimStart(a))
    ensures IsOptional(Trim(a)) && IsOptional(Trim(a + "|" + b))
    ensures Undash(Trim(a + "|" + b)) == TrimStart(TrimStart(a)[1..]) + "|" + TrimEnd(b)
    ensures Undash(Trim(a)) == Trim(TrimStart(TrimStart(a)[1..]))
  {
    var A := TrimStart(a);
    var B := TrimEnd(b);
    TrimAround(a, '|', b);
    assert (A + "|" + B)[1..] == A[1..] + "|" + B;
    TrimAround(A[1..], '|', B);
    TrimEndIdempotent(b);
    DashedTrim(a);
    TrimAfterTrimEnd(A[1..]);
    TrimAfterTrimStart(A[1..]);
  }

  /**
   * Lines 54-58: everything after the first `|` is the default, quoted, with
   * only the clause's trailing white space cut; the name, the type and the
   * optional marker come from the text before it alone.
   */
  lemma DefaultAfterFirstBar(a: string, b: string)
    requires '|' !in a
    ensures ParseClause(a + "|" + b) == ParseClause(a).(default := Some("'" + TrimEnd(b) + "'"))
  {
    ParseStages(a + "|" + b);
    ParseStages(a);
    var A := TrimStart(a);
    NotInTrimStart(a, '|');
    if IsOptional(A) {
      DashedBarClause(a, b);
      var t := TrimStart(A[1..]);
      NotInSlice(A, '|', 1, |A|);
      NotInTrimStart(A[1..], '|');
      FromUndashedBar(t, TrimEnd(b), false);
    } else {
      PlainBarClause(a, b);
      TrimAfterTrimStart(a);
      FromUndashedBar(A, TrimEnd(b), true);
    }
  }

  /** The type when `(` follows `x`: the text up to the first `)`, or "" when there is none or it comes first. */
  function TypeText(x: string, y: string): string {
    if ')' in x then ""
    else if ')' in y then y[..IndexOf(y, ')')]
    else ""
  }

  /** Lines 60-65 on a trimmed text with its first `(` after `x`. */
  lemma SplitTypeOpen(x: string, y: string)
    requires '(' !in x && IsTrimmed(x + "(" + y)
    ensures SplitType(x + "(" + y) == (Trim(x), TypeText(x, y))
  {
    var s := x + "(" + y;
    IndexOfAppend(x, '(', y);
    assert s[..|x|] == x;
    var close := IndexOf(s, ')');
    var typeText := Substr(s, |x| + 1, close - (|x| + 1));
    if ')' in x {
      CloseBeforeOpen(x, y);
      assert typeText == [];
    } else if ')' in y {
      CloseAfterOpen(x, y);
      SliceAfterOpen(x, y, IndexOf(y, ')'));
      assert typeText == y[..IndexOf(y, ')')];
    } else {
      assert ')' !in s;
      assert typeText == [];
    }
    assert typeText == TypeText(x, y);
  }

  lemma CloseBeforeOpen(x: string, y: string)
    requires ')' in x
    ensures IndexOf(x + "(" + y, ')') < |x|
  {
    var s := x + "(" + y;
    var k := IndexOf(x, ')');
    assert s[k] == ')';
    assert s[..k] == x[..k];
    IndexOfUnique(s, ')', k);
  }

  lemma CloseAfterOpen(x: string, y: string)
    requires ')' !in x && ')' in y
    ensures IndexOf(x + "(" + y, ')') == |x| + 1 + IndexOf(y, ')')
  {
    var p := x + "(";
    assert ')' !in p;
    IndexOfAfter(p, ')', y);
  }

  lemma SliceAfterOpen(x: string, y: string, k: nat)
    requires k <= |y|
    ensures (x + "(" + y)[|x| + 1..|x| + 1 + k] == y[..k]
  {
    var s := x + "(" + y;
    assert forall i :: 0 <= i < k ==> s[|x| + 1..|x| + 1 + k][i] == y[i];
  }

  /** Cutting the white space around a clause does not change which type it names. */
  lemma TypeTextTrim(x: string, y: string)
    ensures TypeText(TrimStart(x), TrimEnd(y)) == TypeText(x, y)
  {
    InTrimStart(x, ')');
    if ')' in y {
      IndexOfTrimEnd(y, ')');
      var k := IndexOf(y, ')');
      assert TrimEnd(y)[..k] == y[..k];
    } else {
      NotInSlice(y, ')', 0, Tail(y));
    }
  }

  /** The clause `x(y)` without marker or default, trimmed, is the trimmed start of `x`, `(`, the trimmed end of `y`. */
  lemma ParenClause(x: string, y: string)
    requires '(' !in x && '|' !in x && '|' !in y
    requires !IsOptional(Trim(x + "(" + y))
    ensures Trim(x + "(" + y) == TrimStart(x) + "(" + TrimEnd(y)
    ensures ParseClause(x + "(" + y) == FromUndashed(TrimStart(x) + "(" + TrimEnd(y), true)
    ensures '|' !in TrimStart(x) + "(" + TrimEnd(y) && '(' !in TrimStart(x)
  {
    ParseStages(x + "(" + y);
    TrimAround(x, '(', y);
    NotInTrimStart(x, '(');
    NotInTrimStart(x, '|');
    NotInSlice(y, '|', 0, Tail(y));
  }

  /**
   * Lines 60-65: in a clause with no optional marker and no default, the
   * name is the trimmed text before the first `(` and the type is the text
   * strictly between it and the first `)`; a `)` missing, or before the
   * `(`, gives the empty type.
   */
  lemma TypeBetweenParens(x: string, y: string)
    requires '(' !in x && '|' !in x && '|' !in y
    requires !IsOptional(Trim(x + "(" + y))
    ensures ParseClause(x + "(" + y) == Field(Trim(x), TypeText(x, y), true, None)
  {
    ParenClause(x, y);
    var X, Y := TrimStart(x), TrimEnd(y);
    SplitTypeOpen(X, Y);
    TrimAfterTrimStart(x);
    TypeTextTrim(x, y);
  }

  /** A clause with none of the markers is its own trimmed name, with type "String". */
  lemma Unmarked(c: string)
    requires '|' !in c && '(' !in c && !IsOptional(Trim(c))
    ensures ParseClause(c) == Field(Trim(c), "String", true, None)
  {
    NotInTrim(c, '|');
    NotInTrim(c, '(');
  }

  /** The clause `name` of the `-f` help text (line 14): a required string field. */
  lemma HelpName()
    ensures ParseClause("name") == Field("name", "String", true, None)
  {
    TrimOfTrimmed("name");
    Unmarked("name");
  }

  /** The clause `age(number)` of the help text: a required field of type `number`. */
  lemma HelpAge()
    ensures ParseClause("age(number)") == Field("age", "number", true, None)
  {
    AgeConcat();
    AgeViaParens();
    AgeParts();
    AgeType();
  }

  lemma AgeConcat()
    ensures ParseClause("age(number)") == ParseClause("age" + "(" + "number)")
  {
    assert "age" + "(" + "number)" == "age(number)";
  }

  lemma AgeViaParens()
    ensures ParseClause("age" + "(" + "number)") == Field(Trim("age"), TypeText("age", "number)"), true, None)
  {
    AgeParts();
    TypeBetweenParens("age", "number)");
  }

  lemma AgeParts()
    ensures "age" + "(" + "number)" == "age(number)"
    ensures Trim("age") == "age" && !IsOptional(Trim("age(number)"))
  {
    TrimOfTrimmed("age");
    TrimOfTrimmed("age(number)");
  }

  lemma AgeType()
    ensures TypeText("age", "number)") == "number"
  {
    TypeTextClosed("age", "number");
    assert "number" + ")" == "number)";
  }

  /** With no `)` before it, the type runs up to the `)` that ends `y`. */
  lemma TypeTextClosed(x: string, t: string)
    requires ')' !in x && ')' !in t
    ensures TypeText(x, t + ")") == t
  {
    IndexOfAppend(t, ')', "");
    assert t + [')'] + "" == t + ")";
    assert (t + ")")[..|t|] == t;
  }

  /** The clause ` isHuman(boolean)` is a required boolean field. */
  lemma HelpIsHumanType()
    ensures ParseClause(" isHuman(boolean)") == Field("isHuman", "boolean", true, None)
  {
    IsHumanConcat();
    IsHumanViaParens();
    IsHumanParts();
    IsHumanType();
  }

  lemma IsHumanConcat()
    ensures ParseClause(" isHuman(boolean)") == ParseClause(" isHuman" + "(" + "boolean)")
  {
    assert " isHuman" + "(" + "boolean)" == " isHuman(boolean)";
  }

  lemma IsHumanViaParens()
    ensures ParseClause(" isHuman" + "(" + "boolean)") == Field(Trim(" isHuman"), TypeText(" isHuman", "boolean)"), true, None)
  {
    IsHumanParts();
    TypeBetweenParens(" isHuman", "boolean)");
  }

  lemma IsHumanParts()
    ensures " isHuman" + "(" + "boolean)" == " isHuman(boolean)"
    ensures Trim(" isHuman") == "isHuman" && !IsOptional(Trim(" isHuman(boolean)"))
  {
    TrimUnique(" isHuman", 1, 8);
    TrimUnique(" isHuman(boolean)", 1, 17);
  }

  lemma IsHumanType()
    ensures TypeText(" isHuman", "boolean)") == "boolean"
  {
    TypeTextClosed(" isHuman", "boolean");
    assert "boolean" + ")" == "boolean)";
  }

  /** The clause ` isHuman(boolean)|true`: the default `'true'` is added to the field before the `|`. */
  lemma HelpIsHumanDefault()
    ensures ParseClause(" isHuman(boolean)|true") == Field("isHuman", "boolean", true, Some("'true'"))
  {
    IsHumanBarConcat();
    IsHumanViaBar();
    HelpIsHumanType();
    QuotedTrue();
  }

  lemma QuotedTrue()
    ensures "'" + TrimEnd("true") + "'" == "'true'"
  {
    TailUnique("true", 4);
  }

  lemma IsHumanBarConcat()
    ensures ParseClause(" isHuman(boolean)|true") == ParseClause(" isHuman(boolean)" + "|" + "true")
  {
    assert " isHuman(boolean)" + "|" + "true" == " isHuman(boolean)|true";
  }

  lemma IsHumanViaBar()
    ensures ParseClause(" isHuman(boolean)" + "|" + "true")
         == ParseClause(" isHuman(boolean)").(default := Some("'" + TrimEnd("true") + "'"))
  {
    DefaultAfterFirstBar(" isHuman(boolean)", "true");
  }

  /** The clause `- isHuman(boolean)|true` of the help text: optional, boolean, default `'true'`. */
  lemma HelpIsHuman()
    ensures ParseClause("- isHuman(boolean)|true") == Field("isHuman", "boolean", false, Some("'true'"))
  {
    IsHumanDashConcat();
    IsHumanViaDash();
    HelpIsHumanDefault();
  }

  lemma IsHumanDashConcat()
    ensures ParseClause("- isHuman(boolean)|true") == ParseClause("-" + " isHuman(boolean)|true")
  {
    assert "-" + " isHuman(boolean)|true" == "- isHuman(boolean)|true";
  }

  lemma IsHumanViaDash()
    ensures ParseClause("-" + " isHuman(boolean)|true") == ParseClause(" isHuman(boolean)|true").(required := false)
  {
    TrimUnique(" isHuman(boolean)|true", 1, 22);
    OptionalMarker(" isHuman(boolean)|true");
  }

  /** The lower-cased type with `double` read as `number`, as the Joi rule uses it. */
  function Normalize(dataType: string): (r: string)
    ensures r == "number" <==> Lower(dataType) == "double" || Lower(dataType) == "number"
    ensures Lower(dataType) != "double" ==> r == Lower(dataType)
  {
    var t := Lower(dataType);
    if t == "double" then "number" else t
  }

  /** `fieldSet[name]`: type, required, trim, then default when the clause had one. */
  function SchemaEntry(f: Field): (e: Value)
    ensures e.Obj? && |e.fields| >= 3 && Keys(e.fields)[..3] == ["type", "required", "trim"]
    ensures "default" in Keys(e.fields) <==> f.default.Some?
  {
    var base := [("type", Str(f.dataType)),
                 ("required", if f.required then Str("true") else Bool(false)),
                 ("trim", Str("true"))];
    var fields := base + (if f.default.Some? then [("default", Str(f.default.value))] else []);
    assert Keys(fields)[..3] == Keys(base) == ["type", "required", "trim"];
    assert "default" !in Keys(base);
    assert f.default.Some? ==> Keys(fields) == Keys(base) + ["default"];
    Obj(fields)
  }

  /** `validationTypes[name]`. */
  function Rule(f: Field): Value {
    Str("Joi." + Normalize(f.dataType) + "()")
  }

  /** `testFakers[name]`: a switch on the lower-cased type. */
  function Faker(f: Field): Value {
    var t := Lower(f.dataType);
    if t == "number" || t == "double" then Str("faker.random.number()") else Str("faker.random.word()")
  }

  /** The faker table and the Joi rule agree: a numeric generator exactly when the rule is `Joi.number()`. */
  lemma FakerMatchesRule(f: Field)
    ensures Faker(f) == Str("faker.random.number()") <==> Rule(f) == Str("Joi.number()")
    ensures Faker(f) == Str("faker.random.number()") || Faker(f) == Str("faker.random.word()")
  {
    var t := Lower(f.dataType);
    if Rule(f) == Str("Joi.number()") {
      assert "Joi." + Normalize(f.dataType) + "()" == "Joi." + "number" + "()";
      assert Normalize(f.dataType) == ("Joi." + Normalize(f.dataType) + "()")[4..|"Joi." + Normalize(f.dataType) + "()"| - 2];
    }
  }

  /** A `double` type, in any letter case, gets the number rule and the number faker. */
  lemma DoubleIsNumber(f: Field)
    requires Lower(f.dataType) == "double"
    ensures Rule(f) == Str("Joi.number()")
    ensures Faker(f) == Str("faker.random.number()")
  {
  }

  /** `a(Double)` validates and fakes as a number. */
  lemma DoubleExample()
    ensures Rule(Field("a", "Double", true, None)) == Str("Joi.number()")
    ensures Faker(Field("a", "Double", true, None)) == Str("faker.random.number()")
  {
    assert Lower("Double") == "double";
    DoubleIsNumber(Field("a", "Double", true, None));
  }

  /** The clauses of the `-f` string, parsed. */
  function Clauses(fields: string): (fs: seq<Field>)
    ensures |fs| == |Split(fields, ',')|
    ensures forall i :: 0 <= i < |fs| ==> fs[i] == ParseClause(Split(fields, ',')[i])
  {
    var pieces := Split(fields, ',');
    seq(|pieces|, i requires 0 <= i < |pieces| => ParseClause(pieces[i]))
  }

  function Names(fs: seq<Field>): (ns: seq<string>)
    ensures |ns| == |fs|
    ensures forall i :: 0 <= i < |fs| ==> ns[i] == fs[i].name
  {
    seq(|fs|, i requires 0 <= i < |fs| => fs[i].name)
  }

  /** A dictionary filled clause by clause: `view[f.name] = proj(f)`. */
  function Build<V>(fs: seq<Field>, proj: Field -> V): Map<V>
  {
    if fs == [] then []
    else
      var f := fs[|fs| - 1];
      Put(Build(fs[..|fs| - 1], proj), f.name, proj(f))
  }

  lemma BuildStep<V>(fs: seq<Field>, i: nat, proj: Field -> V)
    requires i < |fs|
    ensures Build(fs[..i + 1], proj) == Put(Build(fs[..i], proj), fs[i].name, proj(fs[i]))
  {
    assert fs[..i + 1][..i] == fs[..i];
  }

  /** One clause of the loop extends all three dictionaries. */
  lemma CompileStep(fields: string, i: nat, field: Field, fieldSet: Map<Value>, validationTypes: Map<Value>, testFakers: Map<Value>)
    requires i < |Split(fields, ',')| && field == ParseClause(Split(fields, ',')[i])
    requires fieldSet == Build(Clauses(fields)[..i], SchemaEntry)
    requires validationTypes == Build(Clauses(fields)[..i], Rule)
    requires testFakers == Build(Clauses(fields)[..i], Faker)
    ensures Put(fieldSet, field.name, SchemaEntry(field)) == Build(Clauses(fields)[..i + 1], SchemaEntry)
    ensures Put(validationTypes, field.name, Rule(field)) == Build(Clauses(fields)[..i + 1], Rule)
    ensures Put(testFakers, field.name, Faker(field)) == Build(Clauses(fields)[..i + 1], Faker)
  {
    var fs := Clauses(fields);
    assert field == fs[i];
    BuildStep(fs, i, SchemaEntry);
    BuildStep(fs, i, Rule);
    BuildStep(fs, i, Faker);
  }

  /** The names in order of first appearance, each once. */
  function Dedup(xs: seq<string>): seq<string>
  {
    if xs == [] then []
    else
      var d := Dedup(xs[..|xs| - 1]);
      if xs[|xs| - 1] in d then d else d + [xs[|xs| - 1]]
  }

  /** The last clause with the given name, if any. */
  function LastWith(fs: seq<Field>, name: string): (r: Option<Field>)
    ensures r.Some? ==> exists i :: 0 <= i < |fs| && fs[i] == r.value && r.value.name == name && LaterNamesDiffer(fs, i, name)
    ensures r == None <==> name !in Names(fs)
  {
    if fs == [] then None
    else if fs[|fs| - 1].name == name then Some(fs[|fs| - 1])
    else
      assert Names(fs[..|fs| - 1]) == Names(fs)[..|fs| - 1];
      var r := LastWith(fs[..|fs| - 1], name);
      if r.Some? then
        var i :| 0 <= i < |fs| - 1 && fs[..|fs| - 1][i] == r.value && r.value.name == name && LaterNamesDiffer(fs[..|fs| - 1], i, name);
        assert fs[i] == r.value && LaterNamesDiffer(fs, i, name);
        r
      else r
  }

  /** No clause after position `i` carries `name`. */
  predicate LaterNamesDiffer(fs: seq<Field>, i: nat, name: string) {
    forall j :: i < j < |fs| ==> fs[j].name != name
  }

  /** Deduplicating keeps every name, gives each one place, and adds nothing. */
  lemma {:induction false} DedupSpec(xs: seq<string>)
    ensures Distinct(Dedup(xs))
    ensures forall x :: x in Dedup(xs) <==> x in xs
  {
    if xs != [] {
      DedupSpec(xs[..|xs| - 1]);
      assert xs == xs[..|xs| - 1] + [xs[|xs| - 1]];
    }
  }

  /** Every view has one key per distinct clause name, in order of first appearance. */
  lemma {:induction false} BuildKeys<V>(fs: seq<Field>, proj: Field -> V)
    ensures Keys(Build(fs, proj)) == Dedup(Names(fs))
  {
    if fs != [] {
      BuildKeys(fs[..|fs| - 1], proj);
      assert Names(fs[..|fs| - 1]) == Names(fs)[..|fs| - 1];
    }
  }

  /** The value under a name is the projection of the last clause with that name. */
  lemma {:induction false} BuildLookup<V>(fs: seq<Field>, proj: Field -> V, name: string)
    ensures Lookup(Build(fs, proj), name)
         == if LastWith(fs, name).Some? then Some(proj(LastWith(fs, name).value)) else None
  {
    if fs != [] {
      var f := fs[|fs| - 1];
      BuildLookup(fs[..|fs| - 1], proj, name);
      PutLookup(Build(fs[..|fs| - 1], proj), f.name, proj(f), name);
    }
  }

  /**
   * The `fields.split(",").forEach(...)` loop: the three dictionaries start
   * empty and each clause writes its entry into all three.
   */
  method CompileFields(fields: string) returns (fieldSet: Map<Value>, validationTypes: Map<Value>, testFakers: Map<Value>)
    ensures fieldSet == Build(Clauses(fields), SchemaEntry)
    ensures validationTypes == Build(Clauses(fields), Rule)
    ensures testFakers == Build(Clauses(fields), Faker)
    ensures Keys(fieldSet) == Keys(validationTypes) == Keys(testFakers) == Dedup(Names(Clauses(fields)))
  {
    var pieces := Split(fields, ',');
    fieldSet, validationTypes, testFakers := [], [], [];
    for i := 0 to |pieces|
      invariant fieldSet == Build(Clauses(fields)[..i], SchemaEntry)
      invariant validationTypes == Build(Clauses(fields)[..i], Rule)
      invariant testFakers == Build(Clauses(fields)[..i], Faker)
    {
      var field := ParseClause(pieces[i]);
      CompileStep(fields, i, field, fieldSet, validationTypes, testFakers);
      fieldSet := Put(fieldSet, field.name, SchemaEntry(field));
      validationTypes := Put(validationTypes, field.name, Rule(field));
      testFakers := Put(testFakers, field.name, Faker(field));
    }
    CompiledKeys(Clauses(fields));
  }

  lemma CompiledKeys(fs: seq<Field>)
    ensures fs[..|fs|] == fs
    ensures Keys(Build(fs, SchemaEntry)) == Keys(Build(fs, Rule)) == Keys(Build(fs, Faker)) == Dedup(Names(fs))
  {
    assert fs[..|fs|] == fs;
    BuildKeys(fs, SchemaEntry);
    BuildKeys(fs, Rule);
    BuildKeys(fs, Faker);
  }
}
