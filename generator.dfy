/**
 * The generator's effect on the file system, seen as a map from paths to
 * file contents: `createFromTemplate` for one kind, and the whole run that
 * compiles the field list and creates the eight files.
 */
module Generator {
  import opened OrderedMap
  import opened Serializer
  import opened FieldSpec
  import opened Templates
  import opened IndexUpdate
  import opened JsString
  import opened Wrappers

  type Files = map<string, string>

  /**
   * The files after `createFromTemplate(k)` whose replacer, if the kind has
   * one, inserts `block`: nothing happens when the template cannot be read;
   * otherwise the output is written (created or overwritten) and an existing
   * index file is updated, while a missing one is skipped.
   */
  function Created(files: Files, dir: string, k: Kind, model: string, block: string): Files {
    var from := dir + TemplateFile(k);
    if from !in files then files
    else Published(files, k, model, Render(files[from], model, k, block))
  }

  /**
   * The files after the rendered `body` is written to the kind's output and
   * the kind's index file, if it exists, is updated.
   */
  function Published(files: Files, k: Kind, model: string, body: string): Files {
    var p := PathsFor(k, model);
    var written := files[p.output := body];
    if p.index.Some? && p.index.value in files then written[p.index.value := Appended(files[p.index.value], model, k)]
    else written
  }

  /** The last character of a path. */
  function LastChar(path: string): char
    requires path != []
  {
    path[|path| - 1]
  }

  /** Outputs and index files end in `.js`, templates in `.jst`, so no file is both. */
  lemma PathEnds(dir: string, k: Kind, model: string)
    ensures PathsFor(k, model).output != [] && LastChar(PathsFor(k, model).output) == 's'
    ensures HasIndex(k) ==> PathsFor(k, model).index.value != [] && LastChar(PathsFor(k, model).index.value) == 's'
    ensures dir + TemplateFile(k) != [] && LastChar(dir + TemplateFile(k)) == 't'
  {
    assert LastChar(OutputDir(k) + model + OutputSuffix(k)) == LastChar(OutputSuffix(k));
    assert LastChar(dir + TemplateFile(k)) == LastChar(TemplateFile(k));
  }

  /** A missing template leaves the files as they are. */
  lemma CreatedMissing(files: Files, dir: string, k: Kind, model: string, block: string)
    requires dir + TemplateFile(k) !in files
    ensures Created(files, dir, k, model, block) == files
  {
  }

  /** With the template present, the output holds the rendered template. */
  lemma CreatedOutput(files: Files, dir: string, k: Kind, model: string, block: string)
    requires dir + TemplateFile(k) in files
    ensures PathsFor(k, model).output in Created(files, dir, k, model, block)
    ensures Created(files, dir, k, model, block)[PathsFor(k, model).output] == Render(files[dir + TemplateFile(k)], model, k, block)
  {
    var p := PathsFor(k, model);
    if p.index.Some? {
      OutputNeverIndex(k, k, model, model);
    }
  }

  /** An index file is updated when it exists and never created when it does not. */
  lemma CreatedIndex(files: Files, dir: string, k: Kind, model: string, block: string)
    requires HasIndex(k)
    ensures PathsFor(k, model).index.value in Created(files, dir, k, model, block) <==> PathsFor(k, model).index.value in files
    ensures PathsFor(k, model).index.value in files && dir + TemplateFile(k) in files ==>
      Created(files, dir, k, model, block)[PathsFor(k, model).index.value] == Appended(files[PathsFor(k, model).index.value], model, k)
  {
    OutputNeverIndex(k, k, model, model);
  }

  /** Every file other than the kind's output and index, templates included, is left as it was. */
  lemma CreatedElsewhere(files: Files, dir: string, k: Kind, model: string, block: string, f: string)
    requires f != PathsFor(k, model).output && (HasIndex(k) ==> f != PathsFor(k, model).index.value)
    ensures f in Created(files, dir, k, model, block) <==> f in files
    ensures f in files ==> Created(files, dir, k, model, block)[f] == files[f]
  {
    var from := dir + TemplateFile(k);
    if from in files {
      PublishedElsewhere(files, k, model, Render(files[from], model, k, block), f);
    }
  }

  lemma PublishedElsewhere(files: Files, k: Kind, model: string, body: string, f: string)
    requires f != PathsFor(k, model).output && (HasIndex(k) ==> f != PathsFor(k, model).index.value)
    ensures f in Published(files, k, model, body) <==> f in files
    ensures f in files ==> Published(files, k, model, body)[f] == files[f]
  {
    var p := PathsFor(k, model);
    assert p.index.Some? ==> HasIndex(k);
  }

  /** The files after `createFromTemplate` has run for each kind of `ks` in turn. */
  function CreateAll(files: Files, dir: string, ks: seq<Kind>, model: string, blocks: Blocks): Files {
    if ks == [] then files
    else Created(CreateAll(files, dir, ks[..|ks| - 1], model, blocks), dir, ks[|ks| - 1], model, BlockOf(blocks, ks[|ks| - 1]))
  }

  /** No run touches a template. */
  lemma {:induction false} TemplatesKept(files: Files, dir: string, ks: seq<Kind>, model: string, blocks: Blocks, k: Kind)
    requires dir + TemplateFile(k) in files
    ensures dir + TemplateFile(k) in CreateAll(files, dir, ks, model, blocks)
    ensures CreateAll(files, dir, ks, model, blocks)[dir + TemplateFile(k)] == files[dir + TemplateFile(k)]
  {
    if ks != [] {
      var last := ks[|ks| - 1];
      TemplatesKept(files, dir, ks[..|ks| - 1], model, blocks, k);
      PathEnds(dir, k, model);
      PathEnds(dir, last, model);
      CreatedElsewhere(CreateAll(files, dir, ks[..|ks| - 1], model, blocks), dir, last, model, BlockOf(blocks, last), dir + TemplateFile(k));
    }
  }

  /** Each kind occurs at most once. */
  predicate KindsOnce(ks: seq<Kind>) {
    forall i, j :: 0 <= i < j < |ks| ==> ks[i] != ks[j]
  }

  /**
   * Whatever the order in which the eight template reads complete, every
   * generated file whose template exists holds that template rendered for
   * the model: no later step overwrites another kind's output.
   */
  lemma {:induction false} GeneratedFile(files: Files, dir: string, ks: seq<Kind>, model: string, blocks: Blocks, k: Kind)
    requires KindsOnce(ks) && k in ks && dir + TemplateFile(k) in files
    ensures PathsFor(k, model).output in CreateAll(files, dir, ks, model, blocks)
    ensures CreateAll(files, dir, ks, model, blocks)[PathsFor(k, model).output]
         == Render(files[dir + TemplateFile(k)], model, k, BlockOf(blocks, k))
  {
    var prefix, last := ks[..|ks| - 1], ks[|ks| - 1];
    var before := CreateAll(files, dir, prefix, model, blocks);
    if last == k {
      TemplatesKept(files, dir, prefix, model, blocks, k);
      CreatedOutput(before, dir, k, model, BlockOf(blocks, k));
    } else {
      assert k in prefix by {
        var i :| 0 <= i < |ks| && ks[i] == k;
        assert i < |ks| - 1 && prefix[i] == k;
      }
      GeneratedFile(files, dir, prefix, model, blocks, k);
      OutputsDistinct(k, last, model, model);
      if HasIndex(last) {
        OutputNeverIndex(k, last, model, model);
      }
      CreatedElsewhere(before, dir, last, model, BlockOf(blocks, last), PathsFor(k, model).output);
    }
  }

  /** The order of the calls at the top level of the script. */
  const Order: seq<Kind> := [Model, Controller, Route, Service, Validation, Fixture, Integration, Unit]

  /** The three texts the replacers insert. */
  datatype Blocks = Blocks(schema: string, rules: string, fakers: string)

  /** The text a kind's replacer inserts; the test kinds share one. */
  function BlockOf(blocks: Blocks, k: Kind): string {
    match k
    case Model => blocks.schema
    case Validation => blocks.rules
    case Fixture => blocks.fakers
    case Integration => blocks.fakers
    case Unit => blocks.fakers
    case _ => ""
  }

  /**
   * What the replacers serialize for a field list: the schema, Joi and faker
   * dictionaries, each rendered at level 0. The faker dictionary is
   * serialized three times, the later calls on the dictionary the first one
   * flattened, which gives the same text.
   */
  function DictionaryBlocks(fs: seq<Field>): Blocks {
    Blocks(Block(Build(fs, SchemaEntry), 0), Block(Build(fs, Rule), 0), Block(Build(fs, Faker), 0))
  }

  /** The files after a whole run of the generator: the eight calls of the script, in order. */
  function Generated(files: Files, dir: string, fields: string, model: string): Files {
    CreateAll(files, dir, Order, model, DictionaryBlocks(Clauses(fields)))
  }

  /** The script creates every kind once. */
  lemma OrderOnce(k: Kind)
    ensures KindsOnce(Order) && k in Order
  {
    assert Order[KindIndex(k)] == k;
  }

  /** Where a kind sits in `Order`. */
  function KindIndex(k: Kind): nat {
    match k
    case Model => 0
    case Controller => 1
    case Route => 2
    case Service => 3
    case Validation => 4
    case Fixture => 5
    case Integration => 6
    case Unit => 7
  }

  /**
   * After a whole run, every file whose template exists holds that template
   * rendered for the model, with the dictionary its replacer serializes.
   */
  lemma GeneratedOutputs(files: Files, dir: string, fields: string, model: string, k: Kind)
    requires dir + TemplateFile(k) in files
    ensures PathsFor(k, model).output in Generated(files, dir, fields, model)
    ensures Generated(files, dir, fields, model)[PathsFor(k, model).output]
         == Render(files[dir + TemplateFile(k)], model, k, BlockOf(DictionaryBlocks(Clauses(fields)), k))
  {
    OrderOnce(k);
    GeneratedFile(files, dir, Order, model, DictionaryBlocks(Clauses(fields)), k);
  }

  /** The generator's working directory; `dir` is the directory the generator itself is installed in. */
  class Workspace {
    var files: Files
    const dir: string

    constructor(initial: Files, installDir: string)
      ensures files == initial && dir == installDir
    {
      files := initial;
      dir := installDir;
    }

    /**
     * `createFromTemplate(k, replacer)`. `replacer` is the dictionary the
     * kind's replacer serializes into its placeholder; it is serialized, and
     * so flattened, only once the template has been read. `left` is the
     * dictionary as the call leaves it.
     */
    method CreateFromTemplate(k: Kind, model: string, replacer: Option<Map<Value>>) returns (left: Option<Map<Value>>)
      requires replacer.Some? <==> Placeholder(k).Some?
      modifies this
      ensures files == Created(old(files), dir, k, model, if replacer.Some? then Block(replacer.value, 0) else "")
      ensures left == if replacer.Some? && dir + TemplateFile(k) in old(files) then Some(Flatten(replacer.value, 0)) else replacer
    {
      left := replacer;
      var from := dir + TemplateFile(k);
      if from !in files {
        return;
      }
      var body := FillNames(files[from], model);
      if replacer.Some? {
        var text, updated := ObjToString(replacer.value, 0);
        body := ReplaceAll(body, Placeholder(k).value, text);
        left := Some(updated);
      }
      assert body == Render(files[from], model, k, if replacer.Some? then Block(replacer.value, 0) else "");
      Publish(k, model, body);
    }

    /** Writes the generated file and registers it in the kind's index file when that file exists. */
    method Publish(k: Kind, model: string, body: string)
      modifies this
      ensures files == Published(old(files), k, model, body)
    {
      var p := PathsFor(k, model);
      var written := files[p.output := body];
      if p.index.Some? && p.index.value in files {
        var index := new IndexFile(files[p.index.value]);
        index.Update(model, k);
        written := written[p.index.value := index.text];
      }
      files := written;
    }
  }
}
