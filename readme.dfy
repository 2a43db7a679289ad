/**
 `convertJsonToReadme` (cli.js): the README.md text rendered from a parsed
 project manifest. Missing or empty fields fall back to defaults the way
 JavaScript's `||` does (the empty string counts as missing).
 */
module Readme {
  import opened Wrappers

  /** One entry of the manifest's `functions` array. */
  datatype FunctionDoc = FunctionDoc(
    name: string,
    parameters: Option<seq<string>>,
    importExpr: Option<string>,
    description: Option<string>)

  /** A parsed `package.offlinepm.json`. */
  datatype Manifest = Manifest(
    name: Option<string>,
    description: Option<string>,
    functions: Option<seq<FunctionDoc>>)

  const NL := "\n"
  const TABLE_HEADER := "| Function | Parameters | Import | Description |"
  const TABLE_RULE := "|----------|-----------|--------|-------------|"

  /** JavaScript's `v || fallback` on an optional string. */
  function Or(v: Option<string>, fallback: string): string
  {
    if v.Some? && v.value != "" then v.value else fallback
  }

  /** JavaScript's `xs.join(sep)`. */
  function Join(xs: seq<string>, sep: string): string
    decreases |xs|
  {
    if xs == [] then ""
    else if |xs| == 1 then xs[0]
    else xs[0] + sep + Join(xs[1..], sep)
  }

  /** The parameters cell: the list joined with ", ", or empty when there is none. */
  function Params(f: FunctionDoc): string
  {
    if f.parameters.Some? then Join(f.parameters.value, ", ") else ""
  }

  /** One table row per function entry. */
  function Row(f: FunctionDoc): string
  {
    "| " + f.name + " | " + Params(f) + " | `" + Or(f.importExpr, "") + "` | " + Or(f.description, "") + " |"
  }

  function Rows(fs: seq<FunctionDoc>): (rows: seq<string>)
    ensures |rows| == |fs| && forall i :: 0 <= i < |fs| ==> rows[i] == Row(fs[i])
  {
    seq(|fs|, i requires 0 <= i < |fs| => Row(fs[i]))
  }

  /** The functions table, empty when `functions` is absent or has no entries. */
  function FunctionsTable(fs: Option<seq<FunctionDoc>>): string
  {
    if fs.Some? && |fs.value| > 0 then TABLE_HEADER + NL + TABLE_RULE + NL + Join(Rows(fs.value), NL)
    else ""
  }

  /** What stands in the functions section: the table, or a placeholder when it is empty. */
  function Section(fs: Option<seq<FunctionDoc>>): string
  {
    var table := FunctionsTable(fs);
    if table == "" then "No functions defined." else table
  }

  /** The template's lines up to the functions section. */
  function Head(m: Manifest): seq<string>
  {
    ["# " + Or(m.name, "Project"),
     "",
     "## Description",
     Or(m.description, "No description provided."),
     "",
     "## Functions",
     ""]
  }

  /** The template's lines after the functions section. */
  function Tail(m: Manifest): seq<string>
  {
    ["",
     "## Installation",
     "",
     "```bash",
     "offlinepm -c " + Or(m.name, "project-name"),
     "```",
     "",
     "## Usage",
     "",
     "<!-- Add usage examples here -->",
     ""]
  }

  /** The README.md text: the template's lines joined by newlines. */
  function Render(m: Manifest): string
  {
    Join(Head(m) + [Section(m.functions)] + Tail(m), NL)
  }

  // ---------------------------------------------------------------------------
  // Splitting text back into pieces

  /** JavaScript's `s.split(c)` for a one-character separator. */
  function Split(s: string, c: char): (r: seq<string>)
    ensures |r| >= 1
    decreases |s|
  {
    if s == [] then [""]
    else
      var rest := Split(s[1..], c);
      if s[0] == c then [""] + rest else [[s[0]] + rest[0]] + rest[1..]
  }

  /** The pieces of every string of `xs`, one after another. */
  function SplitEach(xs: seq<string>, c: char): seq<string>
    decreases |xs|
  {
    if xs == [] then [] else Split(xs[0], c) + SplitEach(xs[1..], c)
  }

  predicate Avoids(xs: seq<string>, c: char)
  {
    forall i :: 0 <= i < |xs| ==> c !in xs[i]
  }

  lemma {:induction false} SplitWithout(s: string, c: char)
    requires c !in s
    ensures Split(s, c) == [s]
    decreases |s|
  {
    if s != [] {
      SplitWithout(s[1..], c);
      assert [s[0]] + s[1..] == s;
    }
  }

  /** Splitting at a separator splits the two sides independently. */
  lemma {:induction false} SplitAround(a: string, b: string, c: char)
    ensures Split(a + [c] + b, c) == Split(a, c) + Split(b, c)
    decreases |a|
  {
    if a == [] {
      assert a + [c] + b == [c] + b;
      assert ([c] + b)[1..] == b;
    } else {
      assert (a + [c] + b)[0] == a[0];
      assert (a + [c] + b)[1..] == a[1..] + [c] + b;
      SplitAround(a[1..], b, c);
    }
  }

  /** Splitting text joined with a separator gives the pieces of each part. */
  lemma {:induction false} SplitJoin(xs: seq<string>, c: char)
    requires |xs| >= 1
    ensures Split(Join(xs, [c]), c) == SplitEach(xs, c)
    decreases |xs|
  {
    if |xs| == 1 {
      assert SplitEach(xs[1..], c) == [];
    } else {
      SplitJoin(xs[1..], c);
      SplitAround(xs[0], Join(xs[1..], [c]), c);
    }
  }

  lemma {:induction false} SplitEachWithout(xs: seq<string>, c: char)
    requires Avoids(xs, c)
    ensures SplitEach(xs, c) == xs
    decreases |xs|
  {
    if xs != [] {
      SplitWithout(xs[0], c);
      SplitEachWithout(xs[1..], c);
      assert [xs[0]] + xs[1..] == xs;
    }
  }

  lemma {:induction false} SplitEachAppend(xs: seq<string>, ys: seq<string>, c: char)
    ensures SplitEach(xs + ys, c) == SplitEach(xs, c) + SplitEach(ys, c)
    decreases |xs|
  {
    if xs == [] {
      assert xs + ys == ys;
    } else {
      assert (xs + ys)[1..] == xs[1..] + ys;
      SplitEachAppend(xs[1..], ys, c);
    }
  }

  /** Joining with a separator and splitting on it gives the parts back, when no part holds the separator. */
  lemma SplitJoinInverse(xs: seq<string>, c: char)
    requires |xs| >= 1 && Avoids(xs, c)
    ensures Split(Join(xs, [c]), c) == xs
  {
    SplitJoin(xs, c);
    SplitEachWithout(xs, c);
  }

  /** A joined string holds a character only if a part or the separator does. */
  lemma {:induction false} JoinAvoids(xs: seq<string>, sep: string, c: char)
    requires Avoids(xs, c) && c !in sep
    ensures c !in Join(xs, sep)
    decreases |xs|
  {
    if |xs| > 1 {
      JoinAvoids(xs[1..], sep, c);
    }
  }

  // ---------------------------------------------------------------------------
  // What the rendered document looks like

  /** No text field of the manifest holds the character `c`. */
  predicate ManifestAvoids(m: Manifest, c: char)
  {
    && (m.name.Some? ==> c !in m.name.value)
    && (m.description.Some? ==> c !in m.description.value)
    && (m.functions.Some? ==> forall i :: 0 <= i < |m.functions.value| ==> EntryAvoids(m.functions.value[i], c))
  }

  predicate EntryAvoids(f: FunctionDoc, c: char)
  {
    && c !in f.name
    && (f.parameters.Some? ==> Avoids(f.parameters.value, c))
    && (f.importExpr.Some? ==> c !in f.importExpr.value)
    && (f.description.Some? ==> c !in f.description.value)
  }

  lemma ParamsAvoid(f: FunctionDoc, c: char)
    requires EntryAvoids(f, c) && c != ',' && c != ' '
    ensures c !in Params(f)
  {
    if f.parameters.Some? {
      JoinAvoids(f.parameters.value, ", ", c);
    }
  }

  /**
   A row splits at `|` into its four cells (with the blank padding the
   template puts around them), when no field holds a `|`.
   */
  lemma RowCells(f: FunctionDoc)
    requires EntryAvoids(f, '|')
    ensures Split(Row(f), '|') == [
      "",
      " " + f.name + " ",
      " " + Params(f) + " ",
      " `" + Or(f.importExpr, "") + "` ",
      " " + Or(f.description, "") + " ",
      ""]
  {
    ParamsAvoid(f, '|');
    var imp, desc := Or(f.importExpr, ""), Or(f.description, "");
    assert '|' !in imp && '|' !in desc;
    RowShape(f.name, Params(f), imp, desc);
    SplitJoinInverse(["", " " + f.name + " ", " " + Params(f) + " ", " `" + imp + "` ", " " + desc + " ", ""], '|');
  }

  /** The row template is its four padded cells joined with `|`. */
  lemma RowShape(a: string, b: string, c: string, d: string)
    ensures Join(["", " " + a + " ", " " + b + " ", " `" + c + "` ", " " + d + " ", ""], "|")
         == "| " + a + " | " + b + " | `" + c + "` | " + d + " |"
  {
    JoinSix(["", " " + a + " ", " " + b + " ", " `" + c + "` ", " " + d + " ", ""], "|");
    assert "| " == "|" + " " && " | " == " " + "|" + " " && " | `" == " " + "|" + " `";
    assert "` | " == "` " + "|" + " " && " |" == " " + "|";
  }

  lemma JoinSix(xs: seq<string>, sep: string)
    requires |xs| == 6
    ensures Join(xs, sep) == xs[0] + sep + xs[1] + sep + xs[2] + sep + xs[3] + sep + xs[4] + sep + xs[5]
  {
    assert Join(xs[5..], sep) == xs[5];
    assert Join(xs[4..], sep) == xs[4] + sep + xs[5] by { assert xs[4..][1..] == xs[5..]; }
    assert Join(xs[3..], sep) == xs[3] + sep + (xs[4] + sep + xs[5]) by { assert xs[3..][1..] == xs[4..]; }
    assert Join(xs[2..], sep) == xs[2] + sep + (xs[3] + sep + (xs[4] + sep + xs[5])) by { assert xs[2..][1..] == xs[3..]; }
    assert Join(xs[1..], sep) == xs[1] + sep + (xs[2] + sep + (xs[3] + sep + (xs[4] + sep + xs[5]))) by { assert xs[1..][1..] == xs[2..]; }
  }

  /** The lines of the functions section: the table's header, rule and one row per entry, or the placeholder. */
  function FunctionLines(fs: Option<seq<FunctionDoc>>): seq<string>
  {
    if fs.Some? && |fs.value| > 0 then [TABLE_HEADER, TABLE_RULE] + Rows(fs.value) else ["No functions defined."]
  }

  /**
   The rendered document, line by line, when no field holds a newline:
   the heading with the project name or "Project", the description or
   "No description provided.", one table line per function (or "No functions
   defined." when there are none) and the install command with the project
   name or "project-name".
   */
  lemma RenderLines(m: Manifest)
    requires ManifestAvoids(m, '\n')
    ensures Split(Render(m), '\n') == Head(m) + FunctionLines(m.functions) + Tail(m)
  {
    HeadTailAvoid(m);
    SectionLines(m.functions);
    SplitMiddle(Head(m), Section(m.functions), Tail(m), '\n');
  }

  /** Splitting lines joined around one middle part splits only that part. */
  lemma SplitMiddle(head: seq<string>, mid: string, tail: seq<string>, c: char)
    requires Avoids(head, c) && Avoids(tail, c)
    ensures Split(Join(head + [mid] + tail, [c]), c) == head + Split(mid, c) + tail
  {
    var parts := head + [mid] + tail;
    SplitJoin(parts, c);
    assert parts == head + ([mid] + tail);
    SplitEachAppend(head, [mid] + tail, c);
    SplitEachAppend([mid], tail, c);
    SplitEachWithout(head, c);
    SplitEachWithout(tail, c);
    assert SplitEach([mid], c) == Split(mid, c) by {
      assert SplitEach([mid][1..], c) == [];
    }
  }

  lemma HeadTailAvoid(m: Manifest)
    requires ManifestAvoids(m, '\n')
    ensures Avoids(Head(m), '\n') && Avoids(Tail(m), '\n')
  {
    var name, desc := Or(m.name, "Project"), Or(m.description, "No description provided.");
    assert '\n' !in name && '\n' !in desc;
    var h := Head(m);
    forall i | 0 <= i < |h| ensures '\n' !in h[i] {
      if i == 0 { assert h[i] == "# " + name; }
    }
    var install := Or(m.name, "project-name");
    assert '\n' !in install;
    var t := Tail(m);
    forall i | 0 <= i < |t| ensures '\n' !in t[i] {
      if i == 4 { assert t[i] == "offlinepm -c " + install; }
    }
  }

  /** The table's header is a single line. */
  lemma HeaderAvoids()
    ensures '\n' !in TABLE_HEADER
  {
    assert TABLE_HEADER == "| Function | Parameters |" + " Import | Description |";
  }

  /** The table's rule is a single line. */
  lemma RuleAvoids()
    ensures '\n' !in TABLE_RULE
  {
    assert TABLE_RULE == "|----------|-----------|" + "--------|-------------|";
  }

  lemma SectionLines(fs: Option<seq<FunctionDoc>>)
    requires fs.Some? ==> forall i :: 0 <= i < |fs.value| ==> EntryAvoids(fs.value[i], '\n')
    ensures var table := FunctionsTable(fs);
      Split(if table == "" then "No functions defined." else table, '\n') == FunctionLines(fs)
  {
    if fs.Some? && |fs.value| > 0 {
      var rows := Rows(fs.value);
      forall i | 0 <= i < |rows| ensures '\n' !in rows[i] {
        ParamsAvoid(fs.value[i], '\n');
      }
      var lines := [TABLE_HEADER, TABLE_RULE] + rows;
      HeaderAvoids();
      RuleAvoids();
      assert Avoids(lines, '\n');
      JoinSnocFront(TABLE_HEADER, TABLE_RULE, rows);
      assert NL == ['\n'];
      SplitJoinInverse(lines, '\n');
    } else {
      SplitWithout("No functions defined.", '\n');
    }
  }

  lemma JoinSnocFront(a: string, b: string, rows: seq<string>)
    requires rows != []
    ensures Join([a, b] + rows, NL) == a + NL + b + NL + Join(rows, NL)
  {
    assert ([a, b] + rows)[1..] == [b] + rows;
    assert ([b] + rows)[1..] == rows;
  }

  /** The row of the example entry `{ name: "f", parameters: ["a", "b"] }`: empty import and description cells. */
  lemma ExampleRow()
    ensures Row(FunctionDoc("f", Some(["a", "b"]), None, None)) == "| f | a, b | `` |  |"
  {
    assert Join(["a", "b"], ", ") == "a, b";
  }

  /** With no name, description or functions the document uses every default. */
  lemma EmptyManifestDefaults(m: Manifest)
    requires m.name.None? || m.name == Some("")
    requires m.description.None? || m.description == Some("")
    requires m.functions.None? || m.functions == Some([])
    ensures |Split(Render(m), '\n')| == 19
    ensures Split(Render(m), '\n')[0] == "# Project"
    ensures Split(Render(m), '\n')[3] == "No description provided."
    ensures Split(Render(m), '\n')[7] == "No functions defined."
    ensures Split(Render(m), '\n')[12] == "offlinepm -c project-name"
  {
    RenderLines(m);
  }
}
