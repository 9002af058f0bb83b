/**
 * Content-addressed storage of images (`pyramid_frontend/images/files.py`):
 * sharding prefixes, original and processed paths, the URL prefix setting, and
 * the writers that create shard directories, copy uploads to disk and
 * quarantine rejected uploads under a dated directory.
 *
 * The settings dictionary is a record; md5 is a parameter returning a
 * 32-character lower-case hex digest; a filter chain is represented by its
 * `basename(name, ext)` function.
 */
module ImageFiles {
  import opened Wrappers
  import opened Paths
  import opened FileSystem
  import opened Digests
  import Timestamps

  /** The `pyramid_frontend.*` settings the core reads. */
  datatype Settings = Settings(
    originalImageDir: string,
    processedImageDir: string,
    errorDir: string,
    imageUrlPrefix: string)

  /** `prefix_for_name`: the first four hex characters of the name's md5. */
  function PrefixForName(md5: string -> Md5Hex, name: string): (r: string)
    ensures |r| == 4 && IsHex(r) && r <= md5(name)
    ensures NoSlash(r) && r != ""
  {
    md5(name)[..4]
  }

  /** `get_url_prefix`: the configured prefix without trailing slashes. */
  function GetUrlPrefix(settings: Settings): (r: string)
    ensures r <= settings.imageUrlPrefix && !EndsWithSlash(r)
    ensures AllSlashes(settings.imageUrlPrefix[|r|..])
  {
    RStripSlashes(settings.imageUrlPrefix)
  }

  /** `original_path`: `original_image_dir/prefix/name.ext`. */
  function OriginalPath(md5: string -> Md5Hex, settings: Settings, name: string, originalExt: string): string
  {
    Join(Join(settings.originalImageDir, PrefixForName(md5, name)), name + "." + originalExt)
  }

  /** `processed_path`: `processed_image_dir/prefix/chain.basename(name, ext)`. */
  function ProcessedPath(md5: string -> Md5Hex, settings: Settings, name: string, originalExt: string,
                         chainBasename: (string, string) -> string): string
  {
    Join(Join(settings.processedImageDir, PrefixForName(md5, name)), chainBasename(name, originalExt))
  }

  /** The directory `ensure_dirs` creates for a shard prefix. */
  function ShardDir(settings: Settings, prefix: string): string
  {
    Join(settings.originalImageDir, prefix)
  }

  /** What `ensure_dirs` does to the filesystem: nothing when the directory is
      there, `makedirs` otherwise. */
  function EnsureDirsEffect(m: Entries, dirpath: string): (r: Result<Entries, OsError>)
    ensures r.Ok? ==> dirpath in r.value
    ensures r.Ok? ==> forall q :: q in m ==> q in r.value && r.value[q] == m[q]
    ensures dirpath in m ==> r == Ok(m)
  {
    if dirpath in m then Ok(m) else MakeDirs(m, dirpath)
  }

  /** What `save_locally` does, given the stream's contents and whether it is closed:
      `open(path, 'w')` creates or truncates the file first, then `f.seek(0)` fails
      on a closed stream, else the contents are copied. */
  function SaveLocallyEffect(m: Entries, path: string, data: string, closed: bool): (Entries, Outcome<OsError>)
  {
    match WriteFile(m, path, "")
    case Err(e) => (m, Fail(e))
    case Ok(m1) => if closed then (m1, Fail(ClosedStream)) else (m1[path := File(data)], Pass)
  }

  /** The quarantine directory for a given time. */
  function ErrorDirPath(settings: Settings, now: Timestamps.DateTime): string
    requires Timestamps.Valid(now)
  {
    Join(settings.errorDir, Timestamps.Format(now))
  }

  /** What `save_to_error_dir` does to the filesystem. */
  function SaveToErrorDirEffect(m: Entries, settings: Settings, now: Timestamps.DateTime, name: string,
                                data: string, closed: bool): (Entries, Outcome<OsError>)
    requires Timestamps.Valid(now)
  {
    var dirpath := ErrorDirPath(settings, now);
    match EnsureDirsEffect(m, dirpath)
    case Err(e) => (m, Fail(e))
    case Ok(m1) => SaveLocallyEffect(m1, Join(dirpath, name), data, closed)
  }

  /** `ensure_dirs(settings, prefix)` */
  method EnsureDirs(disk: Disk, settings: Settings, prefix: string) returns (o: Outcome<OsError>)
    modifies disk
    ensures var r := EnsureDirsEffect(old(disk.entries), ShardDir(settings, prefix));
            if r.Ok? then o == Pass && disk.entries == r.value
            else o == Fail(r.error) && disk.entries == old(disk.entries)
  {
    var dirpath := Join(settings.originalImageDir, prefix);
    o := Pass;
    if !disk.Exists(dirpath) {
      o := disk.Makedirs(dirpath);
    }
  }

  /** `save_locally(path, f)` */
  method SaveLocally(disk: Disk, path: string, f: Stream) returns (o: Outcome<OsError>)
    modifies disk
    ensures (disk.entries, o) == SaveLocallyEffect(old(disk.entries), path, f.contents, f.closed)
  {
    o := disk.Create(path);
    if o.Fail? {
      return;
    }
    if f.closed {
      o := Fail(ClosedStream);
      return;
    }
    disk.Overwrite(path, f.contents);
  }

  /** `save_to_error_dir(settings, name, f)`: the stream is closed only when the
      copy succeeded. */
  method SaveToErrorDir(disk: Disk, settings: Settings, now: Timestamps.DateTime, name: string, f: Stream)
    returns (o: Outcome<OsError>)
    requires Timestamps.Valid(now)
    modifies disk, f
    ensures (disk.entries, o) == SaveToErrorDirEffect(old(disk.entries), settings, now, name, old(f.contents), old(f.closed))
    ensures f.contents == old(f.contents)
    ensures f.closed == (old(f.closed) || o.Pass?)
  {
    var prefix := Timestamps.Format(now);
    var dirpath := Join(settings.errorDir, prefix);
    if !disk.Exists(dirpath) {
      o := disk.Makedirs(dirpath);
      if o.Fail? {
        return;
      }
    }
    var filepath := Join(dirpath, name);
    o := SaveLocally(disk, filepath, f);
    if o.Fail? {
      return;
    }
    f.Close();
  }

  /** A second `ensure_dirs` for the same prefix changes nothing, and the shard
      directory exists after the first. */
  lemma EnsureDirsIdempotent(m: Entries, dirpath: string)
    requires EnsureDirsEffect(m, dirpath).Ok?
    ensures var m1 := EnsureDirsEffect(m, dirpath).value;
            dirpath in m1 && EnsureDirsEffect(m1, dirpath) == Ok(m1)
  {
  }

  /** A shard directory is created whenever it and its ancestors are free of
      regular files; it is then a directory. */
  lemma EnsureDirsCreates(m: Entries, dirpath: string)
    requires dirpath != "" && !(dirpath in m && m[dirpath].File?) && AncestorsAreDirs(m, dirpath)
    ensures EnsureDirsEffect(m, dirpath).Ok?
    ensures IsDirIn(EnsureDirsEffect(m, dirpath).value, dirpath)
  {
  }

  /** With a plain directory setting, an original lives at
      `dir + "/" + prefix + "/" + name + "." + ext`, inside the shard directory
      `ensure_dirs` creates for that prefix. */
  lemma {:induction false} OriginalPathLayout(md5: string -> Md5Hex, settings: Settings, name: string, ext: string)
    requires settings.originalImageDir != "" && !EndsWithSlash(settings.originalImageDir)
    requires NoSlash(name) && NoSlash(ext)
    ensures var p := PrefixForName(md5, name);
            OriginalPath(md5, settings, name, ext) == settings.originalImageDir + "/" + p + "/" + (name + "." + ext)
    ensures Dirname(OriginalPath(md5, settings, name, ext)) == ShardDir(settings, PrefixForName(md5, name))
    ensures Basename(OriginalPath(md5, settings, name, ext)) == name + "." + ext
  {
    var p := PrefixForName(md5, name);
    var file := name + "." + ext;
    NoSlashConcat(name, ".");
    NoSlashConcat(name + ".", ext);
    JoinStaysPlain(settings.originalImageDir, p);
    var dir := Join(settings.originalImageDir, p);
    JoinSplits(dir, file);
    if |file| > 0 { assert file[0] != '/'; }
    JoinRelative(dir, file);
  }

  /** An original and every processed variant of a name share its shard prefix:
      both sit in a directory named after `prefix_for_name(name)`. */
  lemma {:induction false} ProcessedPathLayout(md5: string -> Md5Hex, settings: Settings, name: string, ext: string,
                                               chainBasename: (string, string) -> string)
    requires settings.processedImageDir != "" && !EndsWithSlash(settings.processedImageDir)
    requires NoSlash(chainBasename(name, ext))
    ensures var p := PrefixForName(md5, name);
            ProcessedPath(md5, settings, name, ext, chainBasename)
              == settings.processedImageDir + "/" + p + "/" + chainBasename(name, ext)
    ensures Dirname(ProcessedPath(md5, settings, name, ext, chainBasename))
              == Join(settings.processedImageDir, PrefixForName(md5, name))
    ensures Basename(ProcessedPath(md5, settings, name, ext, chainBasename)) == chainBasename(name, ext)
  {
    var p := PrefixForName(md5, name);
    var file := chainBasename(name, ext);
    JoinStaysPlain(settings.processedImageDir, p);
    var dir := Join(settings.processedImageDir, p);
    JoinSplits(dir, file);
    if |file| > 0 { assert file[0] != '/'; }
    JoinRelative(dir, file);
  }

  /** The directory holding an original and the one holding a processed variant
      of the same name are both named after `prefix_for_name(name)`. */
  lemma {:induction false} OriginalAndProcessedShareShard(md5: string -> Md5Hex, settings: Settings, name: string,
                                                          ext: string, chainBasename: (string, string) -> string)
    requires settings.originalImageDir != "" && !EndsWithSlash(settings.originalImageDir)
    requires settings.processedImageDir != "" && !EndsWithSlash(settings.processedImageDir)
    requires NoSlash(name) && NoSlash(ext) && NoSlash(chainBasename(name, ext))
    ensures Basename(Dirname(OriginalPath(md5, settings, name, ext))) == PrefixForName(md5, name)
    ensures Basename(Dirname(ProcessedPath(md5, settings, name, ext, chainBasename))) == PrefixForName(md5, name)
  {
    var p := PrefixForName(md5, name);
    OriginalPathLayout(md5, settings, name, ext);
    ProcessedPathLayout(md5, settings, name, ext, chainBasename);
    JoinSplits(settings.originalImageDir, p);
    JoinSplits(settings.processedImageDir, p);
  }

  /** The dated quarantine directory is a plain path under the error directory. */
  lemma ErrorDirPathPlain(settings: Settings, now: Timestamps.DateTime)
    requires Timestamps.Valid(now)
    requires settings.errorDir != "" && !EndsWithSlash(settings.errorDir)
    ensures ErrorDirPath(settings, now) == settings.errorDir + "/" + Timestamps.Format(now)
    ensures ErrorDirPath(settings, now) != "" && !EndsWithSlash(ErrorDirPath(settings, now))
  {
    JoinStaysPlain(settings.errorDir, Timestamps.Format(now));
  }

  /** Copying a stream into an existing directory: an open stream's contents land
      in the file; a closed one leaves the file created empty. */
  lemma SaveLocallyIntoDir(m: Entries, dirpath: string, name: string, data: string, closed: bool)
    requires dirpath != "" && !EndsWithSlash(dirpath) && IsDirIn(m, dirpath)
    requires name != "" && NoSlash(name) && !IsDirIn(m, Join(dirpath, name))
    ensures var path := Join(dirpath, name);
            path != dirpath &&
            SaveLocallyEffect(m, path, data, closed)
              == if closed then (m[path := File("")], Fail(ClosedStream)) else (m[path := File(data)], Pass)
  {
    var path := Join(dirpath, name);
    JoinStaysPlain(dirpath, name);
    JoinSplits(dirpath, name);
    assert |path| == |dirpath| + 1 + |name|;
    assert ParentIsDir(m, path);
    var m1 := m[path := File("")];
    assert WriteFile(m, path, "") == Ok(m1);
    assert m1[path := File(data)] == m[path := File(data)];
  }

  /** The first upload quarantined in a given second creates the dated directory
      and stores its contents there. */
  lemma FirstQuarantine(m: Entries, settings: Settings, now: Timestamps.DateTime, name: string, data: string)
    requires Timestamps.Valid(now)
    requires settings.errorDir != "" && !EndsWithSlash(settings.errorDir)
    requires ErrorDirPath(settings, now) !in m && AncestorsAreDirs(m, ErrorDirPath(settings, now))
    requires name != "" && NoSlash(name) && !IsDirIn(m, Join(ErrorDirPath(settings, now), name))
    ensures var dirpath := ErrorDirPath(settings, now);
            var m0 := MakeDirs(m, dirpath).value;
            IsDirIn(m0, dirpath) &&
            SaveToErrorDirEffect(m, settings, now, name, data, false) == (m0[Join(dirpath, name) := File(data)], Pass)
  {
    var dirpath := ErrorDirPath(settings, now);
    ErrorDirPathPlain(settings, now);
    var m0 := MakeDirs(m, dirpath).value;
    JoinStaysPlain(dirpath, name);
    SaveLocallyIntoDir(m0, dirpath, name, data, false);
  }

  /** A later upload in the same second finds the dated directory and only copies. */
  lemma LaterQuarantine(m: Entries, settings: Settings, now: Timestamps.DateTime, name: string, data: string, closed: bool)
    requires Timestamps.Valid(now)
    requires settings.errorDir != "" && !EndsWithSlash(settings.errorDir)
    requires IsDirIn(m, ErrorDirPath(settings, now))
    requires name != "" && NoSlash(name) && !IsDirIn(m, Join(ErrorDirPath(settings, now), name))
    ensures var path := Join(ErrorDirPath(settings, now), name);
            SaveToErrorDirEffect(m, settings, now, name, data, closed)
              == if closed then (m[path := File("")], Fail(ClosedStream)) else (m[path := File(data)], Pass)
  {
    var dirpath := ErrorDirPath(settings, now);
    ErrorDirPathPlain(settings, now);
    SaveLocallyIntoDir(m, dirpath, name, data, closed);
  }

  /** Two uploads quarantined within the same second under different names both
      land, with their own contents, in the one dated directory (the streams being
      open ones). */
  lemma {:induction false} TwoQuarantinesInOneSecond(m: Entries, settings: Settings, now: Timestamps.DateTime,
                                                     name1: string, data1: string, name2: string, data2: string)
    requires Timestamps.Valid(now)
    requires settings.errorDir != "" && !EndsWithSlash(settings.errorDir)
    requires ErrorDirPath(settings, now) !in m && AncestorsAreDirs(m, ErrorDirPath(settings, now))
    requires name1 != "" && name2 != "" && NoSlash(name1) && NoSlash(name2) && name1 != name2
    requires !IsDirIn(m, Join(ErrorDirPath(settings, now), name1)) && !IsDirIn(m, Join(ErrorDirPath(settings, now), name2))
    ensures var dirpath := ErrorDirPath(settings, now);
            var (m1, o1) := SaveToErrorDirEffect(m, settings, now, name1, data1, false);
            var (m2, o2) := SaveToErrorDirEffect(m1, settings, now, name2, data2, false);
            o1 == Pass && o2 == Pass && IsDirIn(m2, dirpath) &&
            Join(dirpath, name1) in m2 && m2[Join(dirpath, name1)] == File(data1) &&
            Join(dirpath, name2) in m2 && m2[Join(dirpath, name2)] == File(data2)
  {
    var dirpath := ErrorDirPath(settings, now);
    ErrorDirPathPlain(settings, now);
    var f1, f2 := Join(dirpath, name1), Join(dirpath, name2);
    JoinStaysPlain(dirpath, name1);
    JoinStaysPlain(dirpath, name2);
    assert name1[0] != '/' && name2[0] != '/';
    JoinInjective(dirpath, name1, name2);
    FirstQuarantine(m, settings, now, name1, data1);
    var m1 := MakeDirs(m, dirpath).value[f1 := File(data1)];
    assert !IsDirIn(m1, f2);
    LaterQuarantine(m1, settings, now, name2, data2, false);
  }

  /** The same stream passed twice: the first call closes it, so the second call
      creates an empty file and then fails on the closed stream. */
  lemma {:induction false} QuarantineReusingClosedStream(m: Entries, settings: Settings, now: Timestamps.DateTime,
                                                          name1: string, name2: string, data: string)
    requires Timestamps.Valid(now)
    requires settings.errorDir != "" && !EndsWithSlash(settings.errorDir)
    requires ErrorDirPath(settings, now) !in m && AncestorsAreDirs(m, ErrorDirPath(settings, now))
    requires name1 != "" && name2 != "" && NoSlash(name1) && NoSlash(name2) && name1 != name2
    requires !IsDirIn(m, Join(ErrorDirPath(settings, now), name1)) && !IsDirIn(m, Join(ErrorDirPath(settings, now), name2))
    ensures var dirpath := ErrorDirPath(settings, now);
            var (m1, o1) := SaveToErrorDirEffect(m, settings, now, name1, data, false);
            var (m2, o2) := SaveToErrorDirEffect(m1, settings, now, name2, data, true);
            o1 == Pass && o2 == Fail(ClosedStream) && Join(dirpath, name2) in m2 && m2[Join(dirpath, name2)] == File("")
  {
    var dirpath := ErrorDirPath(settings, now);
    ErrorDirPathPlain(settings, now);
    var f1, f2 := Join(dirpath, name1), Join(dirpath, name2);
    JoinStaysPlain(dirpath, name1);
    JoinStaysPlain(dirpath, name2);
    assert name1[0] != '/' && name2[0] != '/';
    JoinInjective(dirpath, name1, name2);
    FirstQuarantine(m, settings, now, name1, data);
    var m1 := MakeDirs(m, dirpath).value[f1 := File(data)];
    assert !IsDirIn(m1, f2);
    LaterQuarantine(m1, settings, now, name2, data, true);
  }
}
