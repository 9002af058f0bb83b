/**
 * The local filesystem as a map from path to entry, with the operations the
 * core performs on it: `os.path.exists`, `os.path.isdir`, `os.makedirs`,
 * opening a file for writing (which creates or truncates it), writing it, and
 * reading a whole file. A `Disk` object holds the map and is updated in place;
 * a `Stream` is an open Python file object the core reads from and closes.
 */
module FileSystem {
  import opened Wrappers
  import opened Paths

  datatype Entry = Dir | File(data: string)

  type Entries = map<string, Entry>

  /** The errors the operations raise (`OSError`/`IOError` with their errno, and
      the `ValueError` of using a closed file). */
  datatype OsError =
    | FileExists        // EEXIST
    | NotADirectory     // ENOTDIR
    | NoSuchFile        // ENOENT
    | IsADirectory      // EISDIR
    | ClosedStream      // ValueError: I/O operation on closed file

  /** The proper ancestors of `p`: every prefix that ends just before a separator
      (the root itself is not an entry). */
  function Ancestors(p: string): (s: set<string>)
    ensures forall a :: a in s ==> a < p && |a| > 0 && p[|a|] == '/'
  {
    set i | 0 < i < |p| && p[i] == '/' :: p[..i]
  }

  predicate IsDirIn(m: Entries, p: string) { p in m && m[p].Dir? }

  /** No ancestor of `p` is a regular file. */
  predicate AncestorsAreDirs(m: Entries, p: string)
  {
    forall a :: a in Ancestors(p) && a in m ==> m[a].Dir?
  }

  /** `os.makedirs(p)`: creates `p` and every missing ancestor as directories.
      It fails when `p` already exists, and when an ancestor is a file. */
  function MakeDirs(m: Entries, p: string): (r: Result<Entries, OsError>)
    ensures r.Ok? <==> p != "" && p !in m && AncestorsAreDirs(m, p)
    ensures r.Ok? ==> IsDirIn(r.value, p)
    ensures r.Ok? ==> forall a :: a in Ancestors(p) ==> IsDirIn(r.value, a)
    ensures r.Ok? ==> forall q :: q in m ==> q in r.value && r.value[q] == m[q]
    ensures r.Ok? ==> forall q :: q in r.value && q !in m ==> r.value[q] == Dir && (q == p || q in Ancestors(p))
  {
    if p == "" then Err(NoSuchFile)
    else if p in m then Err(FileExists)
    else if !AncestorsAreDirs(m, p) then Err(NotADirectory)
    else Ok(m + map a | a in Ancestors(p) + {p} && a !in m :: Dir)
  }

  /** Whether the directory that would hold `p` is there: the current directory
      (empty dirname) and the root always are. */
  predicate ParentIsDir(m: Entries, p: string)
  {
    var d := Dirname(p);
    d == "" || AllSlashes(d) || IsDirIn(m, d)
  }

  /** `open(p, 'w')` followed by writing `data` and closing: creates or replaces the
      file, provided `p` is not a directory and its parent directory exists. */
  function WriteFile(m: Entries, p: string, data: string): (r: Result<Entries, OsError>)
    ensures r.Ok? <==> p != "" && !IsDirIn(m, p) && ParentIsDir(m, p)
    ensures r.Ok? ==> r.value == m[p := File(data)]
  {
    if p == "" then Err(NoSuchFile)
    else if IsDirIn(m, p) then Err(IsADirectory)
    else if !ParentIsDir(m, p) then
      (if Dirname(p) in m then Err(NotADirectory) else Err(NoSuchFile))
    else Ok(m[p := File(data)])
  }

  /** The universal-newline translation of a text-mode read: `\r\n` and a lone
      `\r` both become `\n`, so no carriage return is left. */
  function UniversalNewlines(s: string): (r: string)
    ensures |r| <= |s|
    ensures forall i :: 0 <= i < |r| ==> r[i] != '\r'
    decreases |s|
  {
    if s == [] then []
    else if s[0] == '\r' then ['\n'] + UniversalNewlines(if |s| > 1 && s[1] == '\n' then s[2..] else s[1..])
    else [s[0]] + UniversalNewlines(s[1..])
  }

  /** Text without carriage returns reads back as it is. */
  lemma {:induction false} UniversalNewlinesKeepsPlainText(s: string)
    requires forall i :: 0 <= i < |s| ==> s[i] != '\r'
    ensures UniversalNewlines(s) == s
    decreases |s|
  {
    if s != [] {
      UniversalNewlinesKeepsPlainText(s[1..]);
    }
  }

  /** Translating twice is translating once. */
  lemma UniversalNewlinesIdempotent(s: string)
    ensures UniversalNewlines(UniversalNewlines(s)) == UniversalNewlines(s)
  {
    UniversalNewlinesKeepsPlainText(UniversalNewlines(s));
  }

  /** `io.open(p, encoding='utf8').read()`: a whole file read in text mode. */
  function ReadFile(m: Entries, p: string): (r: Result<string, OsError>)
    ensures r.Ok? <==> p in m && m[p].File?
    ensures r.Ok? ==> r.value == UniversalNewlines(m[p].data)
  {
    if p !in m then Err(NoSuchFile)
    else if m[p].Dir? then Err(IsADirectory)
    else Ok(UniversalNewlines(m[p].data))
  }

  /** A text without carriage returns, once written, reads back unchanged. */
  lemma ReadAfterWrite(m: Entries, p: string, data: string)
    requires WriteFile(m, p, data).Ok?
    requires forall i :: 0 <= i < |data| ==> data[i] != '\r'
    ensures ReadFile(WriteFile(m, p, data).value, p) == Ok(data)
  {
    UniversalNewlinesKeepsPlainText(data);
  }

  /** Creating a directory that is then looked for again finds it: a second
      `makedirs` guarded by `exists` is skipped. */
  lemma MakeDirsThenExists(m: Entries, p: string)
    requires MakeDirs(m, p).Ok?
    ensures p in MakeDirs(m, p).value
    ensures MakeDirs(MakeDirs(m, p).value, p) == Err(FileExists)
  {
  }

  /** The filesystem, updated in place by the operations. */
  class Disk {
    var entries: Entries

    constructor (entries: Entries)
      ensures this.entries == entries
    {
      this.entries := entries;
    }

    /** `os.path.exists(p)` */
    function Exists(p: string): bool
      reads this
    {
      p in entries
    }

    /** `os.path.isdir(p)` */
    function IsDir(p: string): bool
      reads this
    {
      IsDirIn(entries, p)
    }

    /** `os.makedirs(p)` */
    method Makedirs(p: string) returns (o: Outcome<OsError>)
      modifies this
      ensures MakeDirs(old(entries), p).Ok? ==> o == Pass && entries == MakeDirs(old(entries), p).value
      ensures MakeDirs(old(entries), p).Err? ==> o == Fail(MakeDirs(old(entries), p).error) && entries == old(entries)
    {
      var r := MakeDirs(entries, p);
      if r.Ok? {
        entries := r.value;
        o := Pass;
      } else {
        o := Fail(r.error);
      }
    }

    /** `open(p, 'w')`: creates the file empty, or truncates it. */
    method Create(p: string) returns (o: Outcome<OsError>)
      modifies this
      ensures WriteFile(old(entries), p, "").Ok? ==> o == Pass && entries == old(entries)[p := File("")]
      ensures WriteFile(old(entries), p, "").Err? ==> o == Fail(WriteFile(old(entries), p, "").error) && entries == old(entries)
    {
      var r := WriteFile(entries, p, "");
      if r.Ok? {
        entries := r.value;
        o := Pass;
      } else {
        o := Fail(r.error);
      }
    }

    /** Writing through an open file object: replaces what the file holds. */
    method Overwrite(p: string, data: string)
      requires p in entries && entries[p].File?
      modifies this
      ensures entries == old(entries)[p := File(data)]
    {
      entries := entries[p := File(data)];
    }

    /** `with open(p, 'w') as f: f.write(data)` */
    method WriteText(p: string, data: string) returns (o: Outcome<OsError>)
      modifies this
      ensures WriteFile(old(entries), p, data).Ok? ==> o == Pass && entries == WriteFile(old(entries), p, data).value
      ensures WriteFile(old(entries), p, data).Err? ==> o == Fail(WriteFile(old(entries), p, data).error) && entries == old(entries)
    {
      o := Create(p);
      if o.Pass? {
        Overwrite(p, data);
      }
    }

    /** Reading a whole file in text mode: the method through which code holding
        a `Disk` reads, specified by the function `ReadFile` on its entries. */
    method Read(p: string) returns (r: Result<string, OsError>)
      ensures r == ReadFile(entries, p)
    {
      r := ReadFile(entries, p);
    }
  }

  /** An open (or closed) Python file object; its position is always rewound
      before use in the core, so only its contents and state are modelled. */
  class Stream {
    var contents: string
    var closed: bool

    constructor (contents: string)
      ensures this.contents == contents && !closed
    {
      this.contents := contents;
      this.closed := false;
    }

    /** `f.close()` */
    method Close()
      modifies this
      ensures closed && contents == old(contents)
    {
      closed := true;
    }
  }
}
