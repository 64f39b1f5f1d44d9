/**
 * The `.spec` edit of the build script (build_exe.py, `modify_spec_file`):
 * find the `a = Analysis(` line, then replace the first `datas=` line at or
 * after it with the static and template directories, or insert that line
 * right after the Analysis line.
 */
module SpecFile {
  import opened Common
  import opened Text

  /** `str.isspace` for one character: the characters `str.strip()` removes. */
  predicate IsSpace(c: char) {
    var n := c as int;
    || 9 <= n <= 13 || 28 <= n <= 32 || n == 0x85 || n == 0xA0 || n == 0x1680
    || 0x2000 <= n <= 0x200A || n == 0x2028 || n == 0x2029 || n == 0x202F || n == 0x205F || n == 0x3000
  }

  /** `s.lstrip()`. */
  function LeftStrip(s: string): string
  {
    if s != [] && IsSpace(s[0]) then LeftStrip(s[1..]) else s
  }

  /** `s.rstrip()`. */
  function RightStrip(s: string): string
  {
    if s != [] && IsSpace(s[|s| - 1]) then RightStrip(s[..|s| - 1]) else s
  }

  /** `s.strip()`. */
  function Strip(s: string): string {
    RightStrip(LeftStrip(s))
  }

  /** The two line heads the script looks for, after stripping. */
  const AnalysisPrefix: string := "a = Analysis("
  const DatasPrefix: string := "datas="

  predicate IsAnalysisLine(line: string) {
    StartsWith(Strip(line), AnalysisPrefix)
  }

  predicate IsDatasLine(line: string) {
    StartsWith(Strip(line), DatasPrefix)
  }

  /**
   * A for/else search over the lines: the first index at or after `from`
   * whose line satisfies `p`, or none.
   */
  function FirstIndex(lines: seq<string>, from: nat, p: string -> bool): (r: Option<nat>)
    ensures r.None? <==> forall i :: from <= i < |lines| ==> !p(lines[i])
    ensures r.Some? ==> (from <= r.value < |lines| && p(lines[r.value])
      && forall i :: from <= i < r.value ==> !p(lines[i]))
    decreases |lines| - from
  {
    if from >= |lines| then None
    else if p(lines[from]) then Some(from)
    else FirstIndex(lines, from + 1, p)
  }

  /** The index of the first Analysis line, if any. */
  function AnalysisIndex(lines: seq<string>): Option<nat> {
    FirstIndex(lines, 0, IsAnalysisLine)
  }

  /** The index of the first `datas=` line at or after `from`, if any. */
  function DatasIndex(lines: seq<string>, from: nat): Option<nat> {
    FirstIndex(lines, from, IsDatasLine)
  }

  /** `('src', 'dest')`. */
  function DataEntry(src: string, dest: string): string {
    "('" + src + "', '" + dest + "')"
  }

  /** The replacement line: the entries joined by a comma, a newline and eight spaces. */
  function DatasLine(datas: seq<(string, string)>): string {
    var entries := seq(|datas|, i requires 0 <= i < |datas| => DataEntry(datas[i].0, datas[i].1));
    "    datas=[" + Join(entries, ",\n        ") + "],\n"
  }

  /**
   * The two directories the script adds, below the script's own directory
   * `base`: the collected static files and the templates.
   */
  function BundledDirectories(base: string): seq<(string, string)> {
    [(base + "/staticfiles", "static"), (base + "/templates", "templates")]
  }

  datatype SpecError = AnalysisNotFound   // the ValueError of the script

  /**
   * The lines of the edited `.spec` file, or the error, for a given
   * replacement line `nl`.
   */
  function EditedSpec(lines: seq<string>, nl: string): Result<seq<string>, SpecError> {
    match AnalysisIndex(lines)
    case None => Err(AnalysisNotFound)
    case Some(a) =>
      match DatasIndex(lines, a)
      case Some(j) => Ok(lines[j := nl])
      case None => Ok(lines[..a + 1] + [nl] + lines[a + 1..])
  }

  /** The edit with the `datas=` line built from `datas`. */
  function ModifiedSpec(lines: seq<string>, datas: seq<(string, string)>): Result<seq<string>, SpecError> {
    EditedSpec(lines, DatasLine(datas))
  }

  /**
   * One for/else search loop of `modify_spec_file`: the index of the first
   * line at or after `from` satisfying `p`, or `|lines|` when the loop runs
   * to its end.
   */
  method Search(lines: seq<string>, from: nat, p: string -> bool) returns (k: nat)
    requires from <= |lines|
    ensures from <= k <= |lines|
    ensures FirstIndex(lines, from, p) == if k < |lines| then Some(k) else None
  {
    k := from;
    while k < |lines|
      invariant from <= k <= |lines|
      invariant forall i :: from <= i < k ==> !p(lines[i])
    {
      if p(lines[k]) {
        FirstIndexAt(lines, from, k, p);
        return;
      }
      k := k + 1;
    }
  }

  /**
   * `modify_spec_file` without the file read and write: the two searches,
   * then an index assignment or an `insert` on the list of lines.
   */
  method ModifySpecFile(content: seq<string>, base: string) returns (r: Result<seq<string>, SpecError>)
    ensures r == ModifiedSpec(content, BundledDirectories(base))
  {
    var specContent := content;
    var analysisIndex := Search(specContent, 0, IsAnalysisLine);
    if analysisIndex == |specContent| {
      return Err(AnalysisNotFound);
    }
    var newDatasLine := DatasLine(BundledDirectories(base));
    var j := Search(specContent, analysisIndex, IsDatasLine);
    if j < |specContent| {
      specContent := specContent[j := newDatasLine];
    } else {
      specContent := specContent[..analysisIndex + 1] + [newDatasLine] + specContent[analysisIndex + 1..];
    }
    return Ok(specContent);
  }

  // ---------------------------------------------------------------------------
  // Properties of the edit

  /** No line is both an Analysis line and a `datas=` line. */
  lemma AnalysisIsNotDatas(line: string)
    requires IsAnalysisLine(line)
    ensures !IsDatasLine(line)
  {
    assert Strip(line)[0] == 'a';
  }

  lemma {:induction false} LeftStripSpaces(n: nat, s: string)
    requires s != [] && !IsSpace(s[0])
    ensures LeftStrip(seq(n, _ => ' ') + s) == s
  {
    if n > 0 {
      var t := seq(n, _ => ' ') + s;
      assert t[1..] == seq(n - 1, _ => ' ') + s;
      LeftStripSpaces(n - 1, s);
    }
  }

  /** The new line, stripped, starts with `datas=` (and so is found again by a later run). */
  lemma DatasLineIsDatas(datas: seq<(string, string)>)
    ensures IsDatasLine(DatasLine(datas))
  {
    var entries := seq(|datas|, i requires 0 <= i < |datas| => DataEntry(datas[i].0, datas[i].1));
    var body := "datas=[" + Join(entries, ",\n        ") + "],";
    assert DatasLine(datas) == seq(4, _ => ' ') + (body + "\n");
    LeftStripSpaces(4, body + "\n");
    var t := body + "\n";
    assert t[..|t| - 1] == body;
    assert RightStrip(t) == body;
    assert body[..6] == "datas=";
    assert Strip(DatasLine(datas)) == body;
  }

  /**
   * The edit fails exactly when there is no Analysis line. Otherwise the
   * first `datas=` line at or after it is replaced, keeping the length, or the
   * new line goes right after the Analysis line, growing the list by one;
   * every line before the Analysis line, `datas=` lines included, is kept.
   */
  lemma EditedSpecSpec(lines: seq<string>, nl: string)
    ensures EditedSpec(lines, nl).Err? <==> forall i :: 0 <= i < |lines| ==> !IsAnalysisLine(lines[i])
    ensures EditedSpec(lines, nl).Ok? ==>
      var a := AnalysisIndex(lines).value;
      var r := EditedSpec(lines, nl).value;
      && r[..a + 1] == lines[..a + 1]
      && (if exists j :: a <= j < |lines| && IsDatasLine(lines[j])
          then |r| == |lines| && forall i :: 0 <= i < |lines| ==> r[i] == (if i == DatasIndex(lines, a).value then nl else lines[i])
          else |r| == |lines| + 1 && r[a + 1] == nl && r[a + 2..] == lines[a + 1..])
  {
    match AnalysisIndex(lines)
    case None =>
    case Some(a) =>
      match DatasIndex(lines, a)
      case Some(j) =>
        assert j != a by { AnalysisIsNotDatas(lines[a]); }
        ReplaceShape(lines, a, j, nl);
        assert IsDatasLine(lines[j]);
      case None =>
        InsertShape(lines, a, nl);
  }

  /** Replacing a line after `a` keeps the lines up to `a` and every other line. */
  lemma ReplaceShape(lines: seq<string>, a: nat, j: nat, nl: string)
    requires a < j < |lines|
    ensures lines[j := nl][..a + 1] == lines[..a + 1]
    ensures forall i :: 0 <= i < |lines| ==> lines[j := nl][i] == (if i == j then nl else lines[i])
  {
  }

  /** Inserting a line right after `a` keeps the lines up to `a` and shifts the rest by one. */
  lemma InsertShape(lines: seq<string>, a: nat, nl: string)
    requires a < |lines|
    ensures var r := lines[..a + 1] + [nl] + lines[a + 1..];
      && |r| == |lines| + 1 && r[..a + 1] == lines[..a + 1] && r[a + 1] == nl && r[a + 2..] == lines[a + 1..]
      && forall i :: 0 <= i <= a ==> r[i] == lines[i]
  {
    var r := lines[..a + 1] + [nl] + lines[a + 1..];
    assert r[..a + 1] == lines[..a + 1];
    assert r[a + 2..] == lines[a + 1..];
  }

  /** An index satisfying `p` with none before it from `from` on is the one the search finds. */
  lemma FirstIndexAt(lines: seq<string>, from: nat, j: nat, p: string -> bool)
    requires from <= j < |lines| && p(lines[j])
    requires forall i :: from <= i < j ==> !p(lines[i])
    ensures FirstIndex(lines, from, p) == Some(j)
  {
  }

  /** Replacing a line after the first `pa` line by a `pd` line moves neither search. */
  lemma SearchesAfterReplace(lines: seq<string>, nl: string, a: nat, j: nat, pa: string -> bool, pd: string -> bool)
    requires FirstIndex(lines, 0, pa) == Some(a) && FirstIndex(lines, a, pd) == Some(j)
    requires a < j && pd(nl)
    ensures FirstIndex(lines[j := nl], 0, pa) == Some(a)
    ensures FirstIndex(lines[j := nl], a, pd) == Some(j)
  {
    var r := lines[j := nl];
    FirstIndexAt(r, 0, a, pa);
    FirstIndexAt(r, a, j, pd);
  }

  /**
   * Inserting a `pd` line right after the first `pa` line, itself not a
   * `pd` line, makes the inserted line the one the second search finds.
   */
  lemma SearchesAfterInsert(lines: seq<string>, nl: string, a: nat, pa: string -> bool, pd: string -> bool)
    requires FirstIndex(lines, 0, pa) == Some(a)
    requires !pd(lines[a]) && pd(nl)
    ensures var r := lines[..a + 1] + [nl] + lines[a + 1..];
      FirstIndex(r, 0, pa) == Some(a) && FirstIndex(r, a, pd) == Some(a + 1)
  {
    var r := lines[..a + 1] + [nl] + lines[a + 1..];
    InsertShape(lines, a, nl);
    FirstIndexAt(r, 0, a, pa);
    FirstIndexAt(r, a, a + 1, pd);
  }

  /**
   * Editing again with a replacement line that is itself a `datas=` line
   * changes nothing.
   */
  lemma EditedSpecIdempotent(lines: seq<string>, nl: string)
    requires IsDatasLine(nl)
    requires EditedSpec(lines, nl).Ok?
    ensures EditedSpec(EditedSpec(lines, nl).value, nl) == EditedSpec(lines, nl)
  {
    var a := AnalysisIndex(lines).value;
    match DatasIndex(lines, a)
    case Some(j) => EditAgainAfterReplace(lines, nl, a, j);
    case None => EditAgainAfterInsert(lines, nl, a);
  }

  lemma EditAgainAfterReplace(lines: seq<string>, nl: string, a: nat, j: nat)
    requires IsDatasLine(nl)
    requires AnalysisIndex(lines) == Some(a) && DatasIndex(lines, a) == Some(j)
    ensures EditedSpec(lines[j := nl], nl) == Ok(lines[j := nl])
  {
    assert j != a by { AnalysisIsNotDatas(lines[a]); }
    SearchesAfterReplace(lines, nl, a, j, IsAnalysisLine, IsDatasLine);
    assert lines[j := nl][j := nl] == lines[j := nl];
  }

  lemma EditAgainAfterInsert(lines: seq<string>, nl: string, a: nat)
    requires IsDatasLine(nl)
    requires AnalysisIndex(lines) == Some(a) && DatasIndex(lines, a).None?
    ensures var r := lines[..a + 1] + [nl] + lines[a + 1..];
      EditedSpec(r, nl) == Ok(r)
  {
    assert !IsDatasLine(lines[a]) by { AnalysisIsNotDatas(lines[a]); }
    SearchesAfterInsert(lines, nl, a, IsAnalysisLine, IsDatasLine);
    var r := lines[..a + 1] + [nl] + lines[a + 1..];
    assert r[a + 1 := nl] == r;
  }

  /** Running the build script's edit on an already edited file changes nothing. */
  lemma ModifiedSpecIdempotent(lines: seq<string>, datas: seq<(string, string)>)
    requires ModifiedSpec(lines, datas).Ok?
    ensures ModifiedSpec(ModifiedSpec(lines, datas).value, datas) == ModifiedSpec(lines, datas)
  {
    DatasLineIsDatas(datas);
    EditedSpecIdempotent(lines, DatasLine(datas));
  }
}
