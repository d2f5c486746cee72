/**
 * `objToString`: renders a dictionary as a `{ ... }` block of `key: value,`
 * lines indented with tabs, recursing into nested dictionaries, and on the
 * way replaces every nested dictionary in its argument by the text it was
 * rendered to.
 */
module Serializer {
  import opened OrderedMap

  /** The values the generator stores in its dictionaries: strings, the boolean `false`, and nested objects. */
  datatype Value = Str(s: string) | Bool(b: bool) | Obj(fields: Map<Value>)

  function Tabs(n: nat): (r: string)
    ensures |r| == n
    ensures forall i :: 0 <= i < n ==> r[i] == '\t'
  {
    if n == 0 then "" else Tabs(n - 1) + "\t"
  }

  /** One `key: value,` line of a block whose braces sit at `level`. */
  function Line(key: string, text: string, level: nat): string {
    Tabs(level + 2) + key + ": " + text + ",\n"
  }

  /** The text a value becomes when it is concatenated to a string; a nested object is rendered as a block. */
  function Show(v: Value, level: nat): string
    decreases v, 2, 0
  {
    match v
    case Str(s) => s
    case Bool(b) => if b then "true" else "false"
    case Obj(fields) => Block(fields, level)
  }

  /** What `objToString(obj, level)` returns. */
  function Block(d: Map<Value>, level: nat): string
    decreases Obj(d), 1, 0
  {
    "{\n" + Lines(d, |d|, level) + Tabs(level + 1) + "}"
  }

  /** The lines of the first `n` entries, nested objects one level deeper. */
  function Lines(d: Map<Value>, n: nat, level: nat): string
    requires n <= |d|
    decreases Obj(d), 0, n
  {
    if n == 0 then ""
    else
      assert d[n - 1] in d;
      Lines(d, n - 1, level) + Line(d[n - 1].0, Show(d[n - 1].1, level + 1), level)
  }

  /** An entry after the loop has visited it: a nested object is replaced by its rendered text. */
  function Visited(e: (string, Value), level: nat): (string, Value) {
    if e.1.Obj? then (e.0, Str(Block(e.1.fields, level + 1))) else e
  }

  /** The dictionary as `objToString(obj, level)` leaves it. */
  function Flatten(d: Map<Value>, level: nat): (r: Map<Value>)
    ensures |r| == |d|
    ensures forall i :: 0 <= i < |d| ==> r[i] == Visited(d[i], level)
  {
    seq(|d|, i requires 0 <= i < |d| => Visited(d[i], level))
  }

  /** No value of the dictionary is a nested object. */
  predicate IsFlat(d: Map<Value>) {
    forall i :: 0 <= i < |d| ==> !d[i].1.Obj?
  }

  /**
   * objToString: the text is the block of `obj` at `level`, and the
   * dictionary is left with each nested object replaced by its text,
   * so that rendering it again gives the same text.
   */
  method ObjToString(obj: Map<Value>, level: nat) returns (str: string, updated: Map<Value>)
    ensures str == Block(obj, level)
    ensures updated == Flatten(obj, level)
    decreases Obj(obj)
  {
    var tabs := "\t";
    for i := 0 to level
      invariant tabs == Tabs(i + 1)
    {
      tabs := tabs + "\t";
    }
    str := "{\n";
    updated := obj;
    ghost var target := Flatten(obj, level);
    for j := 0 to |obj|
      invariant |updated| == |obj|
      invariant updated[..j] == target[..j] && updated[j..] == obj[j..]
      invariant str == "{\n" + Lines(obj, j, level)
    {
      assert updated[j] == obj[j] by { assert updated[j..][0] == obj[j..][0]; }
      ghost var before := updated;
      var (p, v) := updated[j];
      if v.Obj? {
        assert v < Obj(obj) by { assert obj[j] in obj; }
        var text, _ := ObjToString(v.fields, level + 1);
        updated := updated[j := (p, Str(text))];
      }
      var text := Show(updated[j].1, level + 1);
      ShowVisited(obj[j], level);
      LineStep(obj, j, level, tabs, text);
      str := str + (tabs + "\t" + p + ": " + text + ",\n");
      assert updated[..j + 1] == target[..j + 1] by { assert updated[..j + 1] == updated[..j] + [updated[j]]; }
      assert updated[j + 1..] == obj[j + 1..] by {
        assert updated[j + 1..] == before[j + 1..] == before[j..][1..];
      }
    }
    str := str + tabs + "}";
    assert updated == updated[..|obj|];
  }

  /** The line the loop appends for entry `j` extends the block's lines by that entry's line. */
  lemma LineStep(d: Map<Value>, j: nat, level: nat, tabs: string, text: string)
    requires j < |d| && tabs == Tabs(level + 1) && text == Show(d[j].1, level + 1)
    ensures "{\n" + Lines(d, j, level) + (tabs + "\t" + d[j].0 + ": " + text + ",\n")
         == "{\n" + Lines(d, j + 1, level)
  {
    assert tabs + "\t" == Tabs(level + 2);
  }

  /** An entry shows the same text before and after the loop visits it. */
  lemma ShowVisited(e: (string, Value), level: nat)
    ensures Visited(e, level).0 == e.0
    ensures Show(Visited(e, level).1, level + 1) == Show(e.1, level + 1)
  {
  }

  lemma {:induction false} LinesFlatten(d: Map<Value>, n: nat, level: nat)
    requires n <= |d|
    ensures Lines(Flatten(d, level), n, level) == Lines(d, n, level)
  {
    if n > 0 {
      LinesFlatten(d, n - 1, level);
    }
  }

  /**
   * Calling objToString a second time on the dictionary the first call left
   * behind gives byte-identical text and leaves that dictionary as it is.
   */
  lemma SecondCallSameText(d: Map<Value>, level: nat)
    ensures Block(Flatten(d, level), level) == Block(d, level)
    ensures IsFlat(Flatten(d, level)) && Flatten(Flatten(d, level), level) == Flatten(d, level)
    ensures Keys(Flatten(d, level)) == Keys(d)
  {
    LinesFlatten(d, |d|, level);
  }
}
