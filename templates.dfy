/**
 * `createFromTemplate`: where each kind of generated file comes from and goes
 * to, and how a template's text becomes the generated file's text.
 */
module Templates {
  import opened Wrappers
  import opened JsString

  /** The eight kinds of file the generator creates, in the order it creates them. */
  datatype Kind = Model | Controller | Route | Service | Validation | Fixture | Integration | Unit

  /** The `type` argument passed to `createFromTemplate` for each kind. */
  function KindName(k: Kind): string {
    match k
    case Model => "model"
    case Controller => "controller"
    case Route => "route"
    case Service => "service"
    case Validation => "validation"
    case Fixture => "fixture"
    case Integration => "integration"
    case Unit => "unit"
  }

  /** The kinds whose generated file is registered in an `index.js` beside it. */
  predicate HasIndex(k: Kind) {
    k != Fixture && k != Integration && k != Unit
  }

  /** `charAt(0).toUpperCase() + substr(1)`: the first character upper-cased, the rest kept. */
  function Capitalize(s: string): (r: string)
    ensures |r| == |s|
    ensures forall i :: 0 < i < |s| ==> r[i] == s[i]
    ensures s != [] ==> r[0] == UpperChar(s[0])
  {
    if s == [] then [] else [UpperChar(s[0])] + s[1..]
  }

  lemma UpperTwice(c: char)
    ensures UpperChar(UpperChar(c)) == UpperChar(c)
    ensures LowerChar(UpperChar(c)) == LowerChar(c)
  {
  }

  /** Capitalising twice is capitalising once, and the result differs from the name only in letter case. */
  lemma CapitalizeIdempotent(s: string)
    ensures Capitalize(Capitalize(s)) == Capitalize(s)
    ensures Lower(Capitalize(s)) == Lower(s)
  {
    if s != [] {
      UpperTwice(s[0]);
      assert Capitalize(Capitalize(s)) == [UpperChar(UpperChar(s[0]))] + s[1..];
      assert Lower(Capitalize(s))[0] == Lower(s)[0];
    }
  }

  /** The three paths `createFromTemplate` works with; `index` is `None` where the source sets it to `false`. */
  datatype Paths = Paths(template: string, output: string, index: Option<string>)

  /** The directory each kind writes into: `src/<type>s/`, `src/routes/v1/` for routes, and a `tests/` layout for the test kinds. */
  function OutputDir(k: Kind): string {
    var t := KindName(k);
    match k
    case Route => "src/" + t + "s/v1/"
    case Fixture => "tests/" + t + "s/"
    case Integration => "tests/" + t + "/"
    case Unit => "tests/" + t + "/models/"
    case _ => "src/" + t + "s/"
  }

  /** What follows the model name in the generated file's name. */
  function OutputSuffix(k: Kind): string {
    var t := KindName(k);
    match k
    case Integration => ".test.js"
    case Unit => ".model.test.js"
    case _ => "." + t + ".js"
  }

  /** The template each kind reads, relative to the generator's own directory. */
  function TemplateFile(k: Kind): string {
    var t := KindName(k);
    match k
    case Fixture => "/template/tests/" + t + "s/temp." + t + ".jst"
    case Integration => "/template/tests/" + t + "/temp.test.jst"
    case Unit => "/template/tests/" + t + "/models/temp.model.test.jst"
    case _ => "/template/" + t + "s/temp." + t + ".jst"
  }

  /**
   * The per-kind path rules: the output is the kind's directory, the model
   * name and the kind's suffix; the index file, for the kinds that have one,
   * is `index.js` in that same directory.
   */
  function PathsFor(k: Kind, model: string): Paths {
    Paths(TemplateFile(k), OutputDir(k) + model + OutputSuffix(k),
          if HasIndex(k) then Some(OutputDir(k) + "index.js") else None)
  }

  /** The paths for the model `post` are the ones of the files generated for it. */
  lemma PostPaths()
    ensures PathsFor(Model, "post").output == "src/models/post.model.js"
  {
  }

  /** Two different model names never get the same output file. */
  lemma OutputInjective(k: Kind, m1: string, m2: string)
    requires PathsFor(k, m1).output == PathsFor(k, m2).output
    ensures m1 == m2
  {
    var d, x := OutputDir(k), OutputSuffix(k);
    var o := d + m1 + x;
    assert |m1| == |m2|;
    assert m1 == o[|d|..|d| + |m1|];
    assert m2 == (d + m2 + x)[|d|..|d| + |m2|];
  }

  /** A position at which the output directories of two different kinds differ. */
  function DirFork(k1: Kind, k2: Kind): nat {
    if HasIndex(k1) != HasIndex(k2) then 0
    else if HasIndex(k1) then 4
    else 6
  }

  /** `src/` directories carry the kind's initial at position 4, `tests/` directories at position 6. */
  lemma DirHead(k: Kind)
    ensures |OutputDir(k)| > 6 && |KindName(k)| > 0
    ensures OutputDir(k)[0] == if HasIndex(k) then 's' else 't'
    ensures OutputDir(k)[if HasIndex(k) then 4 else 6] == KindName(k)[0]
  {
  }

  lemma DirsFork(k1: Kind, k2: Kind)
    requires k1 != k2
    ensures DirFork(k1, k2) < |OutputDir(k1)| && DirFork(k1, k2) < |OutputDir(k2)|
    ensures OutputDir(k1)[DirFork(k1, k2)] != OutputDir(k2)[DirFork(k1, k2)]
  {
    DirHead(k1);
    DirHead(k2);
  }

  /** Texts that start with directories forking at `j` are different. */
  lemma ForkedPrefixes(d1: string, x1: string, y1: string, d2: string, x2: string, y2: string, j: nat)
    requires j < |d1| && j < |d2| && d1[j] != d2[j]
    ensures d1 + x1 + y1 != d2 + x2 + y2
  {
    assert (d1 + x1 + y1)[j] == d1[j];
    assert (d2 + x2 + y2)[j] == d2[j];
  }

  /** Different kinds never write the same file, whatever the model names. */
  lemma OutputsDistinct(k1: Kind, k2: Kind, m1: string, m2: string)
    requires k1 != k2
    ensures PathsFor(k1, m1).output != PathsFor(k2, m2).output
  {
    DirsFork(k1, k2);
    ForkedPrefixes(OutputDir(k1), m1, OutputSuffix(k1), OutputDir(k2), m2, OutputSuffix(k2), DirFork(k1, k2));
  }

  /** No generated file is ever an index file, of its own kind or of another. */
  lemma OutputNeverIndex(k1: Kind, k2: Kind, m1: string, m2: string)
    requires HasIndex(k2)
    ensures PathsFor(k1, m1).output != PathsFor(k2, m2).index.value
  {
    if k1 == k2 {
      var d := OutputDir(k1);
      assert |OutputSuffix(k1)| > |"index.js"|;
      assert |d + m1 + OutputSuffix(k1)| != |d + "index.js"|;
    } else {
      DirsFork(k1, k2);
      ForkedPrefixes(OutputDir(k1), m1, OutputSuffix(k1), OutputDir(k2), "index", ".js", DirFork(k1, k2));
      assert OutputDir(k2) + "index" + ".js" == OutputDir(k2) + "index.js";
    }
  }

  /** The placeholder a kind's replacer fills with a serialized dictionary, if it has a replacer. */
  function Placeholder(k: Kind): Option<string> {
    match k
    case Model => Some("{{FIELDS}}")
    case Validation => Some("{{TYPES}}")
    case Fixture => Some("{{DATA}}")
    case Integration => Some("{{DATA}}")
    case Unit => Some("{{DATA}}")
    case _ => None
  }

  /** Every model-name occurrence becomes the model name, then every capitalised one its capitalised form. */
  function FillNames(template: string, model: string): string {
    ReplaceAll(ReplaceAll(template, "{{temp}}", model), "{{Temp}}", Capitalize(model))
  }

  /** The generated file's text: names first, then the kind's placeholder (if any) replaced by `block`. */
  function Render(template: string, model: string, k: Kind, block: string): string {
    var named := FillNames(template, model);
    match Placeholder(k)
    case None => named
    case Some(p) => ReplaceAll(named, p, block)
  }

  /** Controller, route and service get no block: their text does not depend on it. */
  lemma NoBlockWithoutReplacer(template: string, model: string, k: Kind, b1: string, b2: string)
    requires Placeholder(k).None?
    ensures Render(template, model, k, b1) == Render(template, model, k, b2) == FillNames(template, model)
  {
  }

  /** Template text holding none of the placeholders comes out unchanged. */
  lemma NoPlaceholderUnchanged(template: string, model: string, k: Kind, block: string)
    requires !Contains(template, "{{temp}}") && !Contains(template, "{{Temp}}")
    requires Placeholder(k).Some? ==> !Contains(template, Placeholder(k).value)
    ensures Render(template, model, k, block) == template
  {
    ReplaceAbsent(template, "{{temp}}", model);
    ReplaceAbsent(template, "{{Temp}}", Capitalize(model));
    if Placeholder(k).Some? {
      ReplaceAbsent(template, Placeholder(k).value, block);
    }
  }

  /**
   * A marker wrapped in double braces, with no brace inside, has no proper
   * suffix that is also its prefix, so its occurrences never overlap.
   */
  lemma BracedBorderFree(p: string)
    requires |p| >= 5 && p[0] == p[1] == '{' && p[|p| - 2] == p[|p| - 1] == '}' && p[2] != '{'
    requires forall i :: 2 <= i < |p| - 2 ==> p[i] != '}'
    ensures BorderFree(p)
  {
    forall m | 0 < m < |p| ensures p[m..] != p[..|p| - m] {
      if m == 1 {
        assert p[m..][1] == p[2] != '{' == p[..|p| - m][1];
      } else {
        assert p[m..][|p| - m - 1] == '}';
        assert p[..|p| - m][|p| - m - 1] == p[|p| - m - 1] != '}';
      }
    }
  }

  lemma PlaceholdersBorderFree(p: string)
    requires p == "{{temp}}" || p == "{{Temp}}" || p == "{{FIELDS}}" || p == "{{TYPES}}" || p == "{{DATA}}"
    ensures BorderFree(p)
  {
    BracedBorderFree(p);
  }

  /**
   * Every occurrence of the model-name marker, between pieces that do not
   * hold it, becomes the model name.
   */
  lemma ModelNameFilled(pieces: seq<string>, model: string)
    requires |pieces| >= 1
    requires forall i :: 0 <= i < |pieces| ==> !Contains(pieces[i], "{{temp}}")
    ensures ReplaceAll(Join(pieces, "{{temp}}"), "{{temp}}", model) == Join(pieces, model)
  {
    PlaceholdersBorderFree("{{temp}}");
    ReplaceJoin(pieces, "{{temp}}", model);
  }

  /** Likewise every occurrence of the capitalised marker becomes the capitalised name. */
  lemma CapitalNameFilled(pieces: seq<string>, model: string)
    requires |pieces| >= 1
    requires forall i :: 0 <= i < |pieces| ==> !Contains(pieces[i], "{{Temp}}")
    ensures ReplaceAll(Join(pieces, "{{Temp}}"), "{{Temp}}", Capitalize(model)) == Join(pieces, Capitalize(model))
  {
    PlaceholdersBorderFree("{{Temp}}");
    ReplaceJoin(pieces, "{{Temp}}", Capitalize(model));
  }

  /**
   * After the names are filled in, every occurrence of the kind's placeholder
   * becomes the serialized block and the text around them is kept.
   */
  lemma BlockFilled(template: string, model: string, k: Kind, pieces: seq<string>, block: string)
    requires Placeholder(k).Some? && |pieces| >= 1
    requires FillNames(template, model) == Join(pieces, Placeholder(k).value)
    requires forall i :: 0 <= i < |pieces| ==> !Contains(pieces[i], Placeholder(k).value)
    ensures Render(template, model, k, block) == Join(pieces, block)
  {
    PlaceholdersBorderFree(Placeholder(k).value);
    ReplaceJoin(pieces, Placeholder(k).value, block);
  }
}
