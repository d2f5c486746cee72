/**
 * The index updater of `createFromTemplate`: registers a generated file in
 * the `index.js` beside it by appending one `module.exports` line, unless
 * that exact line is already in the file.
 */
module IndexUpdate {
  import opened JsString
  import opened Templates

  /** The `require` expression the line assigns, up to but without its closing `;`. */
  function Requirement(model: string, k: Kind): string {
    "module.exports." + model + Capitalize(KindName(k)) + " = require('./" + model + "." + KindName(k) + "')"
  }

  /** `module.exports.<model><Kind> = require('./<model>.<kind>');` */
  function ExportLine(model: string, k: Kind): string {
    Requirement(model, k) + ";"
  }

  /**
   * The index file's text after one update: a route index is never written
   * to; any other index gets the line and a newline appended when the line
   * does not already occur in it.
   */
  function Appended(text: string, model: string, k: Kind): (r: string)
    ensures text <= r
    ensures r != text <==> k != Route && !Contains(text, ExportLine(model, k))
    ensures r != text ==> r == text + ExportLine(model, k) + "\n"
  {
    FindContains(text, ExportLine(model, k));
    if k != Route && Find(text, ExportLine(model, k), 0) == -1 then text + ExportLine(model, k) + "\n"
    else text
  }

  /** A file index.js as the generator sees it: its whole text. */
  class IndexFile {
    var text: string

    constructor(initial: string)
      ensures text == initial
    {
      text := initial;
    }

    /** The update of an existing index file for a kind that has one. */
    method Update(model: string, k: Kind)
      requires HasIndex(k)
      modifies this
      ensures text == Appended(old(text), model, k)
    {
      if k != Route {
        var line := ExportLine(model, k);
        if Find(text, line, 0) == -1 {
          text := text + line + "\n";
        }
      }
    }
  }

  /** After an update of a non-route index, the line is in the file. */
  lemma LinePresent(text: string, model: string, k: Kind)
    requires k != Route
    ensures Contains(Appended(text, model, k), ExportLine(model, k))
  {
    var line := ExportLine(model, k);
    if !Contains(text, line) {
      var r := text + line + "\n";
      assert r[|text|..|text| + |line|] == line;
      assert OccursAt(r, line, |text|);
    }
  }

  /** Updating a second time changes nothing. */
  lemma UpdateIdempotent(text: string, model: string, k: Kind)
    ensures Appended(Appended(text, model, k), model, k) == Appended(text, model, k)
  {
    if k != Route {
      LinePresent(text, model, k);
    }
  }

  /** A text whose last character occurs nowhere else has no border. */
  lemma LastOnceBorderFree(p: string)
    requires |p| > 0 && p[|p| - 1] !in p[..|p| - 1]
    ensures BorderFree(p)
  {
    forall m | 0 < m < |p| ensures p[m..] != p[..|p| - m] {
      assert p[m..][|p| - m - 1] == p[|p| - 1];
      assert p[..|p| - m][|p| - m - 1] == p[..|p| - 1][|p| - m - 1];
    }
  }

  lemma NoSemicolonInCapitalized(s: string)
    requires ';' !in s
    ensures ';' !in Capitalize(s)
  {
  }

  /** With a model name free of `;`, the line's only `;` is its last character, so two copies never overlap. */
  lemma ExportLineBorderFree(model: string, k: Kind)
    requires ';' !in model
    ensures BorderFree(ExportLine(model, k))
  {
    var line := ExportLine(model, k);
    NoSemicolonInCapitalized(KindName(k));
    assert line[..|line| - 1] == Requirement(model, k);
    LastOnceBorderFree(line);
  }

  /** Two overlapping occurrences of a pattern make the overlap a border of it. */
  lemma OverlapBorder(r: string, line: string, i: int, j: int)
    requires OccursAt(r, line, i) && OccursAt(r, line, j) && i < j < i + |line|
    ensures line[j - i..] == line[..|line| - (j - i)]
  {
    assert line[j - i..] == r[j..i + |line|];
    assert line[..|line| - (j - i)] == r[j..i + |line|];
  }

  /**
   * A line appended after text that does not contain it occurs exactly once
   * in the result, at the end of the old text.
   */
  lemma AppendedOnce(text: string, line: string)
    requires |line| > 0 && BorderFree(line) && line[|line| - 1] != '\n' && !Contains(text, line)
    ensures Occurrences(text + line + "\n", line) == {|text|}
  {
    var r := text + line + "\n";
    assert r[|text|..|text| + |line|] == line;
    forall i | OccursAt(r, line, i) ensures i == |text| {
      if i + |line| <= |text| {
        assert r[i..i + |line|] == text[i..i + |line|];
        assert OccursAt(text, line, i);
      } else if i < |text| {
        OverlapBorder(r, line, i, |text|);
      }
    }
  }

  /**
   * Running the update twice on an index that did not register the model
   * leaves the line in the file exactly once, right after the old text.
   */
  lemma TwiceLeavesOneLine(text: string, model: string, k: Kind)
    requires k != Route && ';' !in model && !Contains(text, ExportLine(model, k))
    ensures Occurrences(Appended(Appended(text, model, k), model, k), ExportLine(model, k)) == {|text|}
  {
    UpdateIdempotent(text, model, k);
    ExportLineBorderFree(model, k);
    AppendedOnce(text, ExportLine(model, k));
  }
}
