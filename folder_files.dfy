/** The file commands of src-tauri/src/ollama.rs: `read_file_content`, which
    refuses files over 10 MiB, and `read_folder_files`/`collect_text_files`,
    which walk a directory tree and keep the small text files in it. The file
    system is given as values: the metadata and contents a read would return,
    and the tree of entries `read_dir` would list. */
module FolderFiles {
  import opened Wrappers
  import opened Text
  import opened Seqs

  // ── read_file_content ─────────────────────────────────────────────

  /** The largest file `read_file_content` reads: 10 MiB. */
  const MaxFileContent: nat := 10 * 1024 * 1024
  const TooLarge := "File too large (max 10 MB)"
  const CannotRead := "Cannot read file: "

  /** `read_file_content`: `metadata` is what `fs::metadata` returns (the
      length in bytes, or the error text), `contents` what `read_to_string`
      would return. */
  function ReadFileContent(metadata: Result<nat, string>, contents: Result<string, string>): (r: Result<string, string>)
    ensures r == Err(TooLarge) <==> metadata.Ok? && metadata.value > MaxFileContent
    ensures r.Ok? <==> metadata.Ok? && metadata.value <= MaxFileContent && contents.Ok?
    ensures r.Ok? ==> r.value == contents.value
    ensures metadata.Err? ==> r == Err(CannotRead + metadata.error)
    ensures metadata.Ok? && metadata.value <= MaxFileContent && contents.Err? ==> r == Err(CannotRead + contents.error)
  {
    match metadata
    case Err(e) =>
      assert (CannotRead + e)[0] != TooLarge[0];
      Err(CannotRead + e)
    case Ok(len) =>
      if len > MaxFileContent then Err(TooLarge)
      else match contents
        case Ok(text) => Ok(text)
        case Err(e) =>
          assert (CannotRead + e)[0] != TooLarge[0];
          Err(CannotRead + e)
  }

  // ── collect_text_files ────────────────────────────────────────────

  /** A path, as its components below the root: `[]` is `/`. */
  type Path = seq<string>

  /** One entry `read_dir` lists. A file carries what `entry.metadata()`
      gives (its length, `None` on error) and what `read_to_string` gives
      (`None` on error); a directory carries its own listing (`None` when
      `read_dir` fails on it). Entries `read_dir` failed to produce are not
      listed at all, as `flatten()` drops them. */
  datatype Entry =
    | FileEntry(name: string, size: Option<nat>, contents: Option<string>)
    | DirEntry(name: string, listing: Listing)

  /** What `read_dir` gives for a directory. */
  datatype Listing = Unreadable | Listed(entries: seq<Entry>)

  /** One collected file: the name shown, the full path and the text. */
  datatype FolderFile = FolderFile(name: string, path: Path, contents: string)

  /** The deepest level whose listing is still read. */
  const MaxDepth: nat := 5
  /** Files over 1 MiB are skipped. */
  const MaxFolderFile: nat := 1024 * 1024

  /** The extensions read as text (ollama.rs, `read_folder_files`). */
  const TextExtensions: seq<string> := [
    "txt", "md", "json", "csv", "xml", "yaml", "yml", "toml", "ini", "cfg", "log",
    "js", "ts", "tsx", "jsx", "py", "rs", "go", "java", "c", "cpp", "h", "hpp",
    "css", "html", "sql", "sh", "bash", "zsh", "swift", "kt", "rb", "php",
    "env", "gitignore", "dockerfile", "makefile"
  ]

  /** Entries never looked at: hidden ones and the usual build and
      dependency directories, whether files or directories. */
  predicate Skipped(name: string) {
    (|name| > 0 && name[0] == '.') || name == "node_modules" || name == "target" || name == "dist"
  }

  /** The index of the last '.' in `s`. */
  function LastDot(s: string): (r: Option<nat>)
    ensures r.Some? ==> r.value < |s| && s[r.value] == '.'
    ensures r.Some? ==> forall j :: r.value < j < |s| ==> s[j] != '.'
    ensures r.None? ==> forall j :: 0 <= j < |s| ==> s[j] != '.'
  {
    if s == [] then None
    else if s[|s| - 1] == '.' then Some(|s| - 1)
    else LastDot(s[..|s| - 1])
  }

  /** `Path::extension` of a file name, "" where Rust gives `None`: the text
      after the last '.', unless there is no '.', the only '.' opens the
      name, or the name is "..". */
  function Extension(name: string): string {
    if name == ".." then []
    else match LastDot(name)
      case None => []
      case Some(p) => if p == 0 then [] else name[p + 1..]
  }

  /** What an extension is: text after a '.' that has text before it, with no
      '.' of its own. */
  lemma ExtensionIsSuffix(name: string)
    ensures var ext := Extension(name);
      && (forall j :: 0 <= j < |ext| ==> ext[j] != '.')
      && (ext != [] ==> |ext| + 2 <= |name| && name[|name| - |ext|..] == ext && name[|name| - |ext| - 1] == '.')
  {
    var ext := Extension(name);
    if name != ".." && LastDot(name).Some? && LastDot(name).value > 0 {
      var p := LastDot(name).value;
      forall j | 0 <= j < |ext|
        ensures ext[j] != '.'
      {
        assert ext[j] == name[p + 1 + j];
      }
    }
  }

  /** A name read as text: an extension in `exts`, compared lower-cased,
      or the name "makefile" or "dockerfile" in any case. */
  predicate IsTextName(exts: seq<string>, name: string) {
    Lower(Extension(name)) in exts || Lower(name) == "makefile" || Lower(name) == "dockerfile"
  }

  /** The name reported for `file` inside `dir`: the path with the parent
      of `dir` stripped, that is the last component of `dir`, '/', and the
      file name; just the file name when `dir` is the root, which has no
      parent. */
  function ReportedName(dir: Path, file: string): (r: string)
    ensures dir == [] ==> r == file
    ensures dir != [] ==> r == dir[|dir| - 1] + "/" + file
  {
    if dir == [] then file else dir[|dir| - 1] + "/" + file
  }

  /** The file an entry of `dir` is collected as. */
  function FileOf(dir: Path, name: string, contents: string): FolderFile {
    FolderFile(ReportedName(dir, name), dir + [name], contents)
  }

  /** What `collect_text_files(dir, …, depth)` appends: nothing below
      `MaxDepth` or when the listing failed, else what the entries give. */
  function CollectedDir(exts: seq<string>, dir: Path, listing: Listing, depth: nat): seq<FolderFile>
    decreases listing, 2
  {
    if depth > MaxDepth then []
    else match listing
      case Unreadable => []
      case Listed(es) => CollectedEntries(exts, dir, es, depth)
  }

  /** What the loop over entries appends, in listing order. */
  function CollectedEntries(exts: seq<string>, dir: Path, es: seq<Entry>, depth: nat): seq<FolderFile>
    decreases es, 1
  {
    if es == [] then []
    else CollectedEntries(exts, dir, es[..|es| - 1], depth) + CollectedEntry(exts, dir, es[|es| - 1], depth)
  }

  /** What one entry appends: a skipped entry nothing, a directory what its
      walk one level deeper appends, a file itself when its metadata could be
      read, it is at most 1 MiB, its name is a text name and it could be read. */
  function CollectedEntry(exts: seq<string>, dir: Path, e: Entry, depth: nat): seq<FolderFile>
    decreases e, 0
  {
    if Skipped(e.name) then []
    else match e
      case DirEntry(name, listing) => CollectedDir(exts, dir + [name], listing, depth + 1)
      case FileEntry(name, size, contents) =>
        if size.Some? && size.value <= MaxFolderFile && IsTextName(exts, name) && contents.Some?
        then [FileOf(dir, name, contents.value)]
        else []
  }

  /** `collect_text_files`: appends to `out` the text files under `dir`. */
  method CollectTextFiles(exts: seq<string>, dir: Path, listing: Listing, out: seq<FolderFile>, depth: nat)
    returns (result: seq<FolderFile>)
    ensures result == out + CollectedDir(exts, dir, listing, depth)
    decreases listing
  {
    if depth > MaxDepth || listing.Unreadable? {
      return out;
    }
    var entries := listing.entries;
    result := out;
    for i := 0 to |entries|
      invariant result == out + CollectedEntries(exts, dir, entries[..i], depth)
    {
      var entry := entries[i];
      ghost var done := CollectedEntries(exts, dir, entries[..i], depth);
      ghost var added := CollectedEntry(exts, dir, entry, depth);
      assert entries[..i + 1][..i] == entries[..i];
      assert CollectedEntries(exts, dir, entries[..i + 1], depth) == done + added;
      assert (out + done) + added == out + (done + added);
      if Skipped(entry.name) {
        assert added == [];
        continue;
      }
      match entry
      case DirEntry(name, sub) =>
        result := CollectTextFiles(exts, dir + [name], sub, result, depth + 1);
      case FileEntry(name, size, contents) =>
        if size.None? || size.value > MaxFolderFile {
          assert added == [];
          continue;
        }
        if IsTextName(exts, name) && contents.Some? {
          assert added == [FileOf(dir, name, contents.value)];
          result := result + [FileOf(dir, name, contents.value)];
        } else {
          assert added == [];
        }
    }
    assert entries[..|entries|] == entries;
  }

  /** `read_folder_files`: the walk from depth 0 with the text extensions;
      it always succeeds. */
  method ReadFolderFiles(root: Path, listing: Listing) returns (r: Result<seq<FolderFile>, string>)
    ensures r == Ok(CollectedDir(TextExtensions, root, listing, 0))
  {
    var files := CollectTextFiles(TextExtensions, root, listing, [], 0);
    assert [] + CollectedDir(TextExtensions, root, listing, 0) == CollectedDir(TextExtensions, root, listing, 0);
    r := Ok(files);
  }

  /** Where a file collected from the walk of `dir` at `depth` lies: under
      `dir`, with no skipped component below it, at most `MaxDepth - depth`
      directories down. */
  ghost predicate UnderDir(dir: Path, depth: nat, f: FolderFile) {
    && |dir| < |f.path| && f.path[..|dir|] == dir
    && (forall j :: |dir| <= j < |f.path| ==> !Skipped(f.path[j]))
    && |f.path| + depth <= |dir| + MaxDepth + 1
  }

  /** How a collected file is named: its own name is a text name, and it is
      reported under its own directory's name. */
  ghost predicate WellNamed(exts: seq<string>, f: FolderFile) {
    && f.path != []
    && IsTextName(exts, f.path[|f.path| - 1])
    && f.name == ReportedName(f.path[..|f.path| - 1], f.path[|f.path| - 1])
  }

  /** A file under a subdirectory that is not skipped is under its parent,
      one level up. */
  lemma UnderParent(dir: Path, name: string, depth: nat, f: FolderFile)
    requires !Skipped(name) && UnderDir(dir + [name], depth + 1, f)
    ensures UnderDir(dir, depth, f)
  {
    var sub := dir + [name];
    assert f.path[..|dir|] == f.path[..|sub|][..|dir|] == sub[..|dir|] == dir;
    assert f.path[|dir|] == f.path[..|sub|][|dir|] == name;
  }

  /** Everything the walk collects lies under the walked directory and is
      well named. */
  lemma {:induction false} CollectedDirSound(exts: seq<string>, dir: Path, listing: Listing, depth: nat)
    ensures forall f :: f in CollectedDir(exts, dir, listing, depth) ==> UnderDir(dir, depth, f) && WellNamed(exts, f)
    decreases listing, 2
  {
    if depth <= MaxDepth && listing.Listed? {
      CollectedEntriesSound(exts, dir, listing.entries, depth);
    }
  }

  lemma {:induction false} CollectedEntriesSound(exts: seq<string>, dir: Path, es: seq<Entry>, depth: nat)
    requires depth <= MaxDepth
    ensures forall f :: f in CollectedEntries(exts, dir, es, depth) ==> UnderDir(dir, depth, f) && WellNamed(exts, f)
    decreases es, 1
  {
    if es != [] {
      CollectedEntriesSound(exts, dir, es[..|es| - 1], depth);
      CollectedEntrySound(exts, dir, es[|es| - 1], depth);
    }
  }

  lemma {:induction false} CollectedEntrySound(exts: seq<string>, dir: Path, e: Entry, depth: nat)
    requires depth <= MaxDepth
    ensures forall f :: f in CollectedEntry(exts, dir, e, depth) ==> UnderDir(dir, depth, f) && WellNamed(exts, f)
    decreases e, 0
  {
    if !Skipped(e.name) {
      match e
      case DirEntry(name, listing) =>
        CollectedDirSound(exts, dir + [name], listing, depth + 1);
        forall f | f in CollectedDir(exts, dir + [name], listing, depth + 1)
          ensures UnderDir(dir, depth, f)
        {
          UnderParent(dir, name, depth, f);
        }
      case FileEntry(name, size, contents) =>
        if size.Some? && size.value <= MaxFolderFile && IsTextName(exts, name) && contents.Some? {
          var f := FileOf(dir, name, contents.value);
          assert f.path[..|dir|] == dir && f.path[..|f.path| - 1] == dir;
        }
    }
  }

  /** The walk over a listing is the walk over each entry, concatenated. */
  lemma {:induction false} CollectedEntriesFlat(exts: seq<string>, dir: Path, es: seq<Entry>, depth: nat)
    ensures CollectedEntries(exts, dir, es, depth) == FlatMap(es, (e: Entry) => CollectedEntry(exts, dir, e, depth))
  {
    if es != [] {
      CollectedEntriesFlat(exts, dir, es[..|es| - 1], depth);
    }
  }

  /** The walk over a listing split in two is the walk over each part. */
  lemma CollectedEntriesAppend(exts: seq<string>, dir: Path, a: seq<Entry>, b: seq<Entry>, depth: nat)
    ensures CollectedEntries(exts, dir, a + b, depth) == CollectedEntries(exts, dir, a, depth) + CollectedEntries(exts, dir, b, depth)
  {
    var f := (e: Entry) => CollectedEntry(exts, dir, e, depth);
    CollectedEntriesFlat(exts, dir, a + b, depth);
    CollectedEntriesFlat(exts, dir, a, depth);
    CollectedEntriesFlat(exts, dir, b, depth);
    FlatMapAppend(a, b, f);
  }

  /** Every entry's contribution appears, in place, in what its directory's
      walk appends: after those of the entries listed before it and before
      those of the entries listed after it. */
  lemma EntryContributes(exts: seq<string>, dir: Path, es: seq<Entry>, depth: nat, i: nat)
    requires i < |es|
    ensures CollectedEntries(exts, dir, es, depth)
      == CollectedEntries(exts, dir, es[..i], depth) + CollectedEntry(exts, dir, es[i], depth) + CollectedEntries(exts, dir, es[i + 1..], depth)
  {
    assert es == es[..i] + [es[i]] + es[i + 1..];
    CollectedEntriesAppend(exts, dir, es[..i] + [es[i]], es[i + 1..], depth);
    CollectedEntriesAppend(exts, dir, es[..i], [es[i]], depth);
    assert [es[i]][..0] == [];
  }

  /** What the walk keeps is exactly what it should: a small, readable text
      file listed in a directory that is read is collected. */
  lemma CollectsEligibleFile(exts: seq<string>, dir: Path, es: seq<Entry>, depth: nat, i: nat)
    requires depth <= MaxDepth && i < |es| && es[i].FileEntry? && !Skipped(es[i].name)
    requires es[i].size.Some? && es[i].size.value <= MaxFolderFile
    requires IsTextName(exts, es[i].name) && es[i].contents.Some?
    ensures FileOf(dir, es[i].name, es[i].contents.value) in CollectedDir(exts, dir, Listed(es), depth)
  {
    EntryContributes(exts, dir, es, depth, i);
    var before := CollectedEntries(exts, dir, es[..i], depth);
    assert CollectedEntries(exts, dir, es, depth)[|before|] == FileOf(dir, es[i].name, es[i].contents.value);
  }

  /** The walk of a subdirectory that is not skipped appends its files, in
      order, inside what its parent's walk appends. */
  lemma CollectsSubdirectory(exts: seq<string>, dir: Path, es: seq<Entry>, depth: nat, i: nat)
    requires depth <= MaxDepth && i < |es| && es[i].DirEntry? && !Skipped(es[i].name)
    ensures CollectedDir(exts, dir, Listed(es), depth)
      == CollectedEntries(exts, dir, es[..i], depth)
         + CollectedDir(exts, dir + [es[i].name], es[i].listing, depth + 1)
         + CollectedEntries(exts, dir, es[i + 1..], depth)
  {
    EntryContributes(exts, dir, es, depth, i);
  }
}
