/**
  The printer of generated Go code: an object holding the package name, the
  text printed so far, the current indentation and the import registry, and
  the Import handles that register an import the first time they are called.
 */
module Printer {
  import opened StringLib
  import opened Registry

  /** The value a call returns, or the panic that ended it. */
  datatype Result<T> = Ok(value: T) | Panic(message: string)

  /** One line of the rendered import block: its qualifier and its path. */
  datatype ImportLine = ImportLine(qual: string, path: string)

  /** The first line of every generated file, in the form Go tools recognise as generated code. */
  const GeneratedHeader := "// Code generated by goderive DO NOT EDIT.\n"

  /** The panic message of Out when nothing is left to unindent. */
  const UnindentPanic := "bug in code generator: unindenting more than has been indented"

  /** The panic message of an Import whose fallback key names another path. */
  function NonUniquePanic(existing: string, path: string): string
  {
    "non unique fullpath: " + existing + " != " + path
  }

  /** An indentation string: tabs only. */
  ghost predicate AllTabs(s: string)
  {
    forall i :: 0 <= i < |s| ==> s[i] == '\t'
  }

  /**
    Out removes the first character, In appends one: on a string of tabs the
    two cancel, so In followed by Out restores the indentation.
   */
  lemma InThenOutRestores(indent: string)
    requires AllTabs(indent)
    ensures AllTabs(indent + "\t")
    ensures (indent + "\t")[1..] == indent
  {
    var t := indent + "\t";
    assert forall i :: 0 <= i < |t| ==> t[i] == '\t';
    forall i | 0 <= i < |indent| ensures t[1..][i] == indent[i] {
      assert t[1..][i] == t[i + 1];
    }
  }

  /** The fixed start of the output: header comment, blank line and package clause. */
  function Header(pkgName: string): string
  {
    GeneratedHeader + "\n" + "package " + pkgName + "\n"
  }

  /** One import line: the path alone when the qualifier is the path itself, `qual "path"` otherwise. */
  function RenderLine(l: ImportLine): string
  {
    if l.qual == l.path then "\t\"" + l.path + "\"\n"
    else "\t" + l.qual + " \"" + l.path + "\"\n"
  }

  /** A line is written without a qualifier exactly when its qualifier equals its path. */
  lemma UnqualifiedExactlyWhenQualIsPath(l: ImportLine)
    ensures RenderLine(l) == "\t\"" + l.path + "\"\n" <==> l.qual == l.path
  {
    if l.qual != l.path {
      assert |RenderLine(l)| == |l.qual| + |l.path| + 5;
    }
  }

  function RenderLines(ls: seq<ImportLine>): string
  {
    if ls == [] then "" else RenderLine(ls[0]) + RenderLines(ls[1..])
  }

  lemma {:induction false} RenderLinesAppend(ls: seq<ImportLine>, l: ImportLine)
    ensures RenderLines(ls + [l]) == RenderLines(ls) + RenderLine(l)
  {
    if ls != [] {
      assert (ls + [l])[1..] == ls[1..] + [l];
      RenderLinesAppend(ls[1..], l);
    }
  }

  /** The import block: absent when there are no imports. */
  function ImportBlock(ls: seq<ImportLine>): string
  {
    if ls == [] then "" else "\n" + "import (\n" + RenderLines(ls) + ")\n"
  }

  function PathsOf(ls: seq<ImportLine>): (ps: seq<string>)
    ensures |ps| == |ls| && forall i :: 0 <= i < |ls| ==> ps[i] == ls[i].path
  {
    seq(|ls|, i requires 0 <= i < |ls| => ls[i].path)
  }

  /** The paths of `m`, one per key: a path registered under two keys counts twice. */
  ghost function ValuesMultiset(m: map<string, string>): multiset<string>
    decreases |m|
  {
    if m == map[] then multiset{}
    else
      var k :| k in m;
      multiset{m[k]} + ValuesMultiset(m - {k})
  }

  /** Removing two different keys from a map, in either order. */
  lemma RemovePair(m: map<string, string>, j: string, k: string)
    requires j in m && k in m && j != k
    ensures |m - {j}| < |m| && |m - {k}| < |m|
    ensures k in m - {j} && (m - {j})[k] == m[k] && j in m - {k} && (m - {k})[j] == m[j]
    ensures (m - {j}) - {k} == (m - {k}) - {j}
  {
    assert m.Keys == (m - {j}).Keys + {j} && m.Keys == (m - {k}).Keys + {k};
  }

  /** ValuesMultiset may take out any key first. */
  lemma {:induction false} ValuesMultisetRemove(m: map<string, string>, k: string)
    requires k in m
    ensures ValuesMultiset(m) == multiset{m[k]} + ValuesMultiset(m - {k})
    decreases |m|
  {
    var j :| j in m && ValuesMultiset(m) == multiset{m[j]} + ValuesMultiset(m - {j});
    if j != k {
      RemovePair(m, j, k);
      var mj, mk := m - {j}, m - {k};
      var common := mj - {k};
      assert ValuesMultiset(mj) == multiset{m[k]} + ValuesMultiset(common) by {
        ValuesMultisetRemove(mj, k);
      }
      assert ValuesMultiset(mk) == multiset{m[j]} + ValuesMultiset(common) by {
        ValuesMultisetRemove(mk, j);
      }
      calc {
        ValuesMultiset(m);
        multiset{m[j]} + ValuesMultiset(mj);
        multiset{m[j]} + (multiset{m[k]} + ValuesMultiset(common));
        multiset{m[k]} + (multiset{m[j]} + ValuesMultiset(common));
        multiset{m[k]} + ValuesMultiset(mk);
      }
    }
  }

  /**
    What WriteTo promises about the import lines it renders from `imports`:
    one line per entry of the map, paths in non-decreasing order, the paths
    being exactly the map's values, each qualifier a key of that path, and
    all lines of one path carrying the same qualifier (the one qualifier
    `pathToQual` remembers for it).
   */
  ghost predicate ImportLinesOf(lines: seq<ImportLine>, imports: map<string, string>)
  {
    && |lines| == |imports|
    && Sorted(PathsOf(lines))
    && multiset(PathsOf(lines)) == ValuesMultiset(imports)
    && (forall i :: 0 <= i < |lines| ==> lines[i].qual in imports && imports[lines[i].qual] == lines[i].path)
    && forall i, j :: 0 <= i < |lines| && 0 <= j < |lines| && lines[i].path == lines[j].path ==>
         lines[i].qual == lines[j].qual
  }

  /** The order of paths in the import block depends on the map alone, not on the order Go visits it. */
  lemma PathColumnIsDeterministic(l1: seq<ImportLine>, l2: seq<ImportLine>, imports: map<string, string>)
    requires ImportLinesOf(l1, imports) && ImportLinesOf(l2, imports)
    ensures PathsOf(l1) == PathsOf(l2)
  {
    SortedUnique(PathsOf(l1), PathsOf(l2));
  }

  /** No two keys of `m` name the same path. */
  ghost predicate Injective(m: map<string, string>)
  {
    forall a, b :: a in m && b in m && m[a] == m[b] ==> a == b
  }

  /**
    When no path is registered under two keys, the import block is fully
    determined by the map: the output is the same whatever the iteration order.
   */
  lemma RenderingIsDeterministicWhenInjective(l1: seq<ImportLine>, l2: seq<ImportLine>, imports: map<string, string>)
    requires Injective(imports)
    requires ImportLinesOf(l1, imports) && ImportLinesOf(l2, imports)
    ensures l1 == l2
  {
    PathColumnIsDeterministic(l1, l2, imports);
    forall i | 0 <= i < |l1| ensures l1[i] == l2[i] {
      assert PathsOf(l1)[i] == PathsOf(l2)[i];
    }
  }

  /** One step of CollectImports keeps the multiset of paths seen and still to see. */
  lemma CollectStep(paths: seq<string>, rest: map<string, string>, qual: string, all: multiset<string>)
    requires qual in rest
    requires multiset(paths) + ValuesMultiset(rest) == all
    ensures multiset(paths + [rest[qual]]) + ValuesMultiset(rest - {qual}) == all
  {
    ValuesMultisetRemove(rest, qual);
    assert multiset(paths + [rest[qual]]) == multiset(paths) + multiset{rest[qual]};
  }

  /** Every remembered qualifier is a key of `imports` naming its path. */
  ghost predicate QualsNamePaths(pathToQual: map<string, string>, imports: map<string, string>)
  {
    forall p :: p in pathToQual ==> pathToQual[p] in imports && imports[pathToQual[p]] == p
  }

  /** Every collected path has a remembered qualifier. */
  ghost predicate PathsHaveQuals(paths: seq<string>, pathToQual: map<string, string>)
  {
    forall i :: 0 <= i < |paths| ==> paths[i] in pathToQual
  }

  /** Remembering `qual` for `path`, a key naming it, keeps both properties. */
  lemma QualsStep(paths: seq<string>, pathToQual: map<string, string>, imports: map<string, string>, path: string, qual: string)
    requires QualsNamePaths(pathToQual, imports) && PathsHaveQuals(paths, pathToQual)
    requires qual in imports && imports[qual] == path
    ensures QualsNamePaths(pathToQual[path := qual], imports)
    ensures PathsHaveQuals(paths + [path], pathToQual[path := qual])
  {
  }

  /**
    The first loop of WriteTo: visit every entry of `imports`, in whatever order
    Go's map iteration gives (modelled by choosing any remaining key), collecting
    each entry's path and remembering, per path, the last key seen for it.
   */
  method CollectImports(imports: map<string, string>) returns (paths: seq<string>, pathToQual: map<string, string>)
    ensures |paths| == |imports|
    ensures multiset(paths) == ValuesMultiset(imports)
    ensures QualsNamePaths(pathToQual, imports)
    ensures PathsHaveQuals(paths, pathToQual)
  {
    paths, pathToQual := [], map[];
    var rest := imports;
    while rest != map[]
      invariant forall q :: q in rest ==> q in imports && imports[q] == rest[q]
      invariant |paths| + |rest| == |imports|
      invariant multiset(paths) + ValuesMultiset(rest) == ValuesMultiset(imports)
      invariant QualsNamePaths(pathToQual, imports)
      invariant PathsHaveQuals(paths, pathToQual)
      decreases |rest|
    {
      var qual :| qual in rest;
      var path := rest[qual];
      var rest' := rest - {qual};
      assert |rest'| == |rest| - 1 by {
        assert rest.Keys == rest'.Keys + {qual};
      }
      CollectStep(paths, rest, qual, ValuesMultiset(imports));
      QualsStep(paths, pathToQual, imports, path, qual);
      pathToQual := pathToQual[path := qual];
      paths := paths + [path];
      rest := rest';
    }
  }

  /** One line of the import block: the qualifier is left out when it equals the path. */
  method WriteImportLine(qual: string, path: string) returns (line: string)
    ensures line == RenderLine(ImportLine(qual, path))
  {
    if qual == path {
      line := "\t\"" + path + "\"\n";
    } else {
      line := "\t" + qual + " \"" + path + "\"\n";
    }
  }

  /** `lines` are the first `|lines|` paths of `sorted`, each with its remembered qualifier. */
  ghost predicate LinesFor(lines: seq<ImportLine>, sorted: seq<string>, pathToQual: map<string, string>)
  {
    && |lines| <= |sorted|
    && forall j :: 0 <= j < |lines| ==>
         sorted[j] in pathToQual && lines[j] == ImportLine(pathToQual[sorted[j]], sorted[j])
  }

  lemma LinesForStep(lines: seq<ImportLine>, sorted: seq<string>, pathToQual: map<string, string>)
    requires LinesFor(lines, sorted, pathToQual) && |lines| < |sorted| && sorted[|lines|] in pathToQual
    ensures LinesFor(lines + [ImportLine(pathToQual[sorted[|lines|]], sorted[|lines|])], sorted, pathToQual)
  {
  }

  lemma LinesForAll(lines: seq<ImportLine>, sorted: seq<string>, pathToQual: map<string, string>)
    requires LinesFor(lines, sorted, pathToQual) && |lines| == |sorted|
    ensures PathsOf(lines) == sorted
    ensures forall i :: 0 <= i < |lines| ==> lines[i].qual == pathToQual[sorted[i]]
  {
    assert forall j :: 0 <= j < |sorted| ==> PathsOf(lines)[j] == sorted[j];
  }

  /**
    The second loop of WriteTo: one line per path of `sorted`, in order, each
    qualified by the key `pathToQual` remembers for its path.
   */
  method WriteImportLines(sorted: seq<string>, pathToQual: map<string, string>)
    returns (text: string, ghost lines: seq<ImportLine>)
    requires PathsHaveQuals(sorted, pathToQual)
    ensures text == RenderLines(lines)
    ensures PathsOf(lines) == sorted
    ensures text == [] <==> sorted == []
    ensures forall i :: 0 <= i < |lines| ==> lines[i].qual == pathToQual[sorted[i]]
  {
    text, lines := "", [];
    for i := 0 to |sorted|
      invariant text == RenderLines(lines)
      invariant |lines| == i
      invariant LinesFor(lines, sorted, pathToQual)
    {
      var path := sorted[i];
      var qual := pathToQual[path];
      var line := WriteImportLine(qual, path);
      RenderLinesAppend(lines, ImportLine(qual, path));
      LinesForStep(lines, sorted, pathToQual);
      text := text + line;
      lines := lines + [ImportLine(qual, path)];
    }
    LinesForAll(lines, sorted, pathToQual);
  }

  /** Sorting the collected paths keeps a remembered qualifier for each. */
  lemma SortedKeepsQuals(paths: seq<string>, sorted: seq<string>, pathToQual: map<string, string>)
    requires PathsHaveQuals(paths, pathToQual) && multiset(sorted) == multiset(paths)
    ensures PathsHaveQuals(sorted, pathToQual)
  {
    forall i | 0 <= i < |sorted| ensures sorted[i] in pathToQual {
      assert sorted[i] in multiset(paths);
    }
  }

  /** The lines WriteTo renders from the sorted paths satisfy ImportLinesOf. */
  lemma RenderedLinesOf(imports: map<string, string>, paths: seq<string>, pathToQual: map<string, string>,
                        sorted: seq<string>, lines: seq<ImportLine>)
    requires |paths| == |imports| && multiset(paths) == ValuesMultiset(imports)
    requires QualsNamePaths(pathToQual, imports)
    requires Sorted(sorted) && multiset(sorted) == multiset(paths) && |sorted| == |paths|
    requires PathsHaveQuals(sorted, pathToQual)
    requires PathsOf(lines) == sorted
    requires forall i :: 0 <= i < |lines| ==> lines[i].qual == pathToQual[sorted[i]]
    ensures ImportLinesOf(lines, imports)
  {
    forall i | 0 <= i < |lines| ensures lines[i].qual in imports && imports[lines[i].qual] == lines[i].path {
      assert lines[i].path == PathsOf(lines)[i] == sorted[i];
    }
  }

  /** With no imports there are no lines to render. */
  lemma NoImportsNoLines(imports: map<string, string>)
    requires |imports| == 0
    ensures ImportLinesOf([], imports)
  {
    assert imports == map[];
    assert PathsOf([]) == [];
  }

  /** The import block of a non-empty registry, as lines 132-149 write it. */
  method WriteImportBlock(imports: map<string, string>) returns (block: string, ghost lines: seq<ImportLine>)
    requires |imports| > 0
    ensures block == ImportBlock(lines) && block != ""
    ensures ImportLinesOf(lines, imports)
  {
    block := "\n";
    block := block + "import (\n";
    var paths, pathToQual := CollectImports(imports);
    var sorted := Sort(paths);
    SortedKeepsQuals(paths, sorted, pathToQual);
    var text;
    text, lines := WriteImportLines(sorted, pathToQual);
    RenderedLinesOf(imports, paths, pathToQual, sorted, lines);
    block := block + text;
    block := block + ")\n";
  }

  /** The generated-code printer: one per output file. */
  class Printer {
    const pkgName: string
    /** The text printed so far (the buffer `w`). */
    var body: string
    var indent: string
    /** The registry: alias -> import path. */
    var imports: map<string, string>
    var hasContent: bool

    ghost predicate Valid()
      reads this
    {
      AllTabs(indent)
    }

    /** newPrinter: nothing printed, no indentation, no imports. */
    constructor (pkgName: string)
      ensures Valid()
      ensures this.pkgName == pkgName
      ensures body == "" && indent == "" && imports == map[] && !hasContent
    {
      this.pkgName := pkgName;
      body := "";
      indent := "";
      imports := map[];
      hasContent := false;
    }

    /** NewImport: the handle captures the name and path; the registry is not touched until it is called. */
    method NewImport(name: string, path: string) returns (imp: Import)
      ensures fresh(imp)
      ensures imp.printer == this && imp.name == name && imp.path == path
    {
      imp := new Import(this, name, path);
    }

    /** P: prints one line at the current indentation. */
    method P(text: string)
      modifies this
      ensures hasContent
      ensures body == old(body) + old(indent) + text + "\n"
      ensures indent == old(indent) && imports == old(imports)
    {
      hasContent := true;
      body := body + indent + text + "\n";
    }

    /** In: one tab more. */
    method In()
      requires Valid()
      modifies this
      ensures Valid()
      ensures indent == old(indent) + "\t"
      ensures body == old(body) && imports == old(imports) && hasContent == old(hasContent)
    {
      InThenOutRestores(indent);
      indent := indent + "\t";
    }

    /** Out: one tab less, or a panic when there is none to remove. */
    method Out() returns (r: Result<()>)
      requires Valid()
      modifies this
      ensures Valid()
      ensures r.Panic? <==> old(indent) == ""
      ensures r.Panic? ==> r.message == UnindentPanic && indent == old(indent)
      ensures r.Ok? ==> "\t" + indent == old(indent)
      ensures body == old(body) && imports == old(imports) && hasContent == old(hasContent)
    {
      if |indent| > 0 {
        assert indent == [indent[0]] + indent[1..];
        indent := indent[1..];
        r := Ok(());
      } else {
        r := Panic(UnindentPanic);
      }
    }

    method HasContent() returns (b: bool)
      ensures b == hasContent
    {
      b := hasContent;
    }

    /**
      WriteTo, as the text it writes: the header, the import block when there
      are imports, then the body verbatim. Writing the body out drains its
      buffer, so the body is empty afterwards. `lines` are the import lines in
      the order written.
     */
    method WriteTo() returns (out: string, ghost lines: seq<ImportLine>)
      modifies this
      ensures out == Header(pkgName) + ImportBlock(lines) + old(body)
      ensures ImportLinesOf(lines, imports)
      ensures Header(pkgName) <= out && IsSuffix(old(body), out)
      ensures out == Header(pkgName) + old(body) <==> |imports| == 0
      ensures body == "" && indent == old(indent) && imports == old(imports) && hasContent == old(hasContent)
    {
      var top := Header(pkgName);
      lines := [];
      if |imports| > 0 {
        var block;
        block, lines := WriteImportBlock(imports);
        top := top + block;
      } else {
        NoImportsNoLines(imports);
      }
      out := top + body;
      body := "";
    }
  }

  /** The handle NewImport returns: the Go closure with its captured variables. */
  class Import {
    const printer: Printer
    const name: string
    /** Captured by the closure and unvendored again on every call. */
    var path: string

    constructor (printer: Printer, name: string, path: string)
      ensures this.printer == printer && this.name == name && this.path == path
    {
      this.printer := printer;
      this.name := name;
      this.path := path;
    }

    /**
      Calling the closure: unvendor the captured path, then register it under
      `name`, or under its sanitised full path when `name` already means another
      path; panic when that key also means another path.
     */
    method Call() returns (r: Result<string>)
      modifies this, printer
      ensures path == Unvendor(old(path))
      ensures printer.body == old(printer.body) && printer.indent == old(printer.indent)
      ensures printer.hasContent == old(printer.hasContent)
      ensures match Resolve(old(printer.imports), name, path)
        case Resolved(key, next) => r == Ok(key) && printer.imports == next
        case NonUniqueFullpath(existing, p) =>
          r == Panic(NonUniquePanic(existing, p)) && printer.imports == old(printer.imports)
    {
      path := Unvendor(path);
      var fullpath := MakeFullpath(path);
      var alias := name;
      if alias !in printer.imports {
        printer.imports := printer.imports[alias := path];
        return Ok(alias);
      }
      if printer.imports[alias] == path {
        return Ok(alias);
      }
      if fullpath in printer.imports {
        var path2 := printer.imports[fullpath];
        if path2 != path {
          return Panic(NonUniquePanic(path2, path));
        }
      }
      printer.imports := printer.imports[fullpath := path];
      return Ok(fullpath);
    }
  }

  /**
    Calling one Import twice: the second call returns the first call's alias and
    leaves the registry as the first call made it.
   */
  method CallTwice(imp: Import) returns (first: Result<string>, second: Result<string>)
    modifies imp, imp.printer
    ensures imp.path == Unvendor(old(imp.path))
    ensures imp.printer.body == old(imp.printer.body) && imp.printer.indent == old(imp.printer.indent)
    ensures imp.printer.hasContent == old(imp.printer.hasContent)
    ensures first.Ok? ==> second == first
    ensures first.Ok? ==>
      var res := old(Resolve(imp.printer.imports, imp.name, Unvendor(imp.path)));
      res.Resolved? && first == Ok(res.key) && imp.printer.imports == res.imports
    ensures first.Panic? ==> second == first && imp.printer.imports == old(imp.printer.imports)
  {
    ghost var raw := imp.path;
    ghost var before := imp.printer.imports;
    first := imp.Call();
    ghost var between := imp.printer.imports;
    second := imp.Call();
    UnvendorIdempotent(raw);
    if first.Ok? {
      LaterCallIsStable(before, imp.name, raw, between);
    }
  }

  /**
    Calling one Import, then another Import of the same printer (possibly the
    same one), then the first again: the third call returns the first call's
    alias, and the registry is what the first two calls made it.
   */
  method CallAroundAnother(imp: Import, other: Import)
    returns (first: Result<string>, middle: Result<string>, third: Result<string>)
    requires other.printer == imp.printer
    modifies imp, other, imp.printer
    ensures imp.path == Unvendor(old(imp.path)) && other.path == Unvendor(old(other.path))
    ensures imp.printer.body == old(imp.printer.body) && imp.printer.indent == old(imp.printer.indent)
    ensures imp.printer.hasContent == old(imp.printer.hasContent)
    ensures first.Ok? && middle.Ok? ==> third == first
    ensures first.Ok? && middle.Ok? ==>
      var res1 := old(Resolve(imp.printer.imports, imp.name, Unvendor(imp.path)));
      && res1.Resolved? && first == Ok(res1.key)
      && var res2 := Resolve(res1.imports, other.name, Unvendor(old(other.path)));
      && res2.Resolved? && middle == Ok(res2.key) && imp.printer.imports == res2.imports
  {
    ghost var raw, otherRaw := imp.path, other.path;
    ghost var before := imp.printer.imports;
    first := imp.Call();
    ghost var afterFirst := imp.printer.imports;
    middle := other.Call();
    ghost var afterMiddle := imp.printer.imports;
    third := imp.Call();
    UnvendorIdempotent(raw);
    UnvendorIdempotent(otherRaw);
    if first.Ok? && middle.Ok? {
      var res2 := Resolve(afterFirst, other.name, Unvendor(otherRaw));
      assert res2.Resolved? && afterMiddle == res2.imports by {
        if other == imp {
          assert Unvendor(Unvendor(raw)) == Unvendor(raw);
        }
      }
      LaterCallIsStable(before, imp.name, raw, afterMiddle);
    }
  }

  /** In followed by Out leaves the indentation as it was, and Out does not panic. */
  method IndentRoundTrip(p: Printer) returns (r: Result<()>)
    requires p.Valid()
    modifies p
    ensures p.Valid() && r.Ok?
    ensures p.indent == old(p.indent) && p.body == old(p.body) && p.imports == old(p.imports)
    ensures p.hasContent == old(p.hasContent)
  {
    p.In();
    r := p.Out();
    InThenOutRestores(old(p.indent));
  }
}
