/** The documentation corpus as an abstract file tree. Each test module
    reads it through `read_text`, `is_file`, `is_dir`, `exists` and the glob
    family; here those become lookups in a map from root-relative paths to
    entries, and the order in which the file system lists the tree is an
    input (`walk`). */
module Corpus {
  import opened Text
  import opened Seqs

  /** A path relative to the corpus root, one string per component; the
      root itself is `[]`. */
  type Path = seq<string>

  datatype Entry = File(content: string) | Dir

  type Tree = map<Path, Entry>

  /** `path.name`. */
  function Name(p: Path): string {
    if |p| == 0 then "" else p[|p| - 1]
  }

  /** `path.parent`. */
  function Parent(p: Path): Path {
    if |p| == 0 then [] else p[..|p| - 1]
  }

  /** `path.exists()`: the root always exists. */
  predicate Exists(t: Tree, p: Path) {
    p == [] || p in t
  }

  /** `path.is_file()`. */
  predicate IsFile(t: Tree, p: Path) {
    p in t && t[p].File?
  }

  /** `path.is_dir()`. */
  predicate IsDir(t: Tree, p: Path) {
    p == [] || (p in t && t[p].Dir?)
  }

  /** `path.read_text()`, or `None` where Python raises: the path is
      missing or is a directory. */
  function Read(t: Tree, p: Path): (r: Option<string>)
    ensures r.Some? <==> IsFile(t, p)
    ensures r.Some? ==> t[p] == File(r.value)
  {
    if IsFile(t, p) then Some(t[p].content) else None
  }

  /** `walk` lists every entry of the tree exactly once, in the (unspecified)
      order of a recursive directory listing. */
  predicate IsWalk(t: Tree, walk: seq<Path>) {
    && Distinct(walk)
    && (forall p :: p in walk ==> p in t)
    && (forall p :: p in t ==> p in walk)
  }

  /** Paths under version-control metadata, the repository's own test
      suite or a virtual environment are never style- or link-checked. */
  predicate Excluded(p: Path) {
    ".git" in p || "tests" in p || ".venv" in p
  }

  /** An entry `rglob("*.md")` yields. */
  predicate IsMarkdownName(p: Path) {
    EndsWith(Name(p), ".md")
  }

  /** A document the link and style rules visit. */
  predicate IsCheckedMarkdown(p: Path) {
    IsMarkdownName(p) && !Excluded(p)
  }

  /** The documents the link and style rules visit: `rglob("*.md")` minus
      excluded paths, in walk order. No path with a `.git`, `tests` or
      `.venv` component is ever selected. */
  function MarkdownPaths(walk: seq<Path>): (r: seq<Path>)
    ensures forall i :: 0 <= i < |r| ==> r[i] in walk && IsMarkdownName(r[i]) && !Excluded(r[i])
    ensures forall i :: 0 <= i < |walk| && IsMarkdownName(walk[i]) && !Excluded(walk[i]) ==> walk[i] in r
  {
    Filter(walk, IsCheckedMarkdown)
  }

  /** `(dir / target).resolve()`, read lexically: empty and `.` components
      are dropped and `..` goes up one level. `None` when the target is
      absolute or climbs above the corpus root. */
  function Resolve(dir: Path, target: string): (r: Option<Path>)
    ensures |target| > 0 && target[0] == '/' ==> r.None?
    ensures IsPlainComponent(target) ==> r == Some(dir + [target])
    ensures target == ".." ==> r == if |dir| == 0 then None else Some(Parent(dir))
  {
    if |target| > 0 && target[0] == '/' then None
    else
      FindAbsent(target, '/');
      assert '/' !in target ==> Split(target, '/') == [target];
      assert [target][1..] == [];
      assert target == ".." ==> '/' !in target && target != "" && target != ".";
      assert IsPlainComponent(target) ==> Normalize(dir, [target]) == Normalize(dir + [target], []);
      assert target == ".." && |dir| > 0 ==> Normalize(dir, [target]) == Normalize(Parent(dir), []);
      Normalize(dir, Split(target, '/'))
  }

  function Normalize(dir: Path, parts: seq<string>): Option<Path>
    decreases |parts|
  {
    if |parts| == 0 then Some(dir)
    else if parts[0] == "" || parts[0] == "." then Normalize(dir, parts[1..])
    else if parts[0] == ".." then
      (if |dir| == 0 then None else Normalize(Parent(dir), parts[1..]))
    else Normalize(dir + [parts[0]], parts[1..])
  }

  /** A path component as the file system stores it. */
  predicate IsPlainComponent(c: string) {
    c != "" && c != "." && c != ".." && '/' !in c
  }

  /** The target resolves to something that exists in the corpus. */
  predicate Resolves(t: Tree, dir: Path, target: string) {
    var r := Resolve(dir, target);
    r.Some? && Exists(t, r.value)
  }

  /** Resolution never produces an empty, `.` or `..` component, so the
      result is a path the tree can hold. */
  lemma {:induction false} NormalizeIsPlain(dir: Path, parts: seq<string>)
    requires forall i :: 0 <= i < |dir| ==> IsPlainComponent(dir[i])
    requires forall i :: 0 <= i < |parts| ==> '/' !in parts[i]
    ensures var r := Normalize(dir, parts);
      r.Some? ==> forall i :: 0 <= i < |r.value| ==> IsPlainComponent(r.value[i])
    decreases |parts|
  {
    if |parts| == 0 {
    } else if parts[0] == "" || parts[0] == "." {
      NormalizeIsPlain(dir, parts[1..]);
    } else if parts[0] == ".." {
      if |dir| > 0 {
        NormalizeIsPlain(Parent(dir), parts[1..]);
      }
    } else {
      var next := dir + [parts[0]];
      assert forall i :: 0 <= i < |next| ==> IsPlainComponent(next[i]);
      NormalizeIsPlain(next, parts[1..]);
    }
  }

  /** A target made of plain components, joined with `/`, resolves to
      those components below the directory. */
  lemma {:induction false} ResolveRelative(dir: Path, parts: seq<string>)
    requires |parts| > 0
    requires forall i :: 0 <= i < |parts| ==> IsPlainComponent(parts[i])
    ensures Resolve(dir, Join(parts, '/')) == Some(dir + parts)
  {
    SplitJoin(parts, '/');
    NormalizePlain(dir, parts);
  }

  lemma {:induction false} NormalizePlain(dir: Path, parts: seq<string>)
    requires forall i :: 0 <= i < |parts| ==> IsPlainComponent(parts[i])
    ensures Normalize(dir, parts) == Some(dir + parts)
    decreases |parts|
  {
    if |parts| == 0 {
      assert dir + parts == dir;
    } else {
      NormalizePlain(dir + [parts[0]], parts[1..]);
      assert dir + [parts[0]] + parts[1..] == dir + parts;
    }
  }
}
