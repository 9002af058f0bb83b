/**
 * The shared part of the asset handlers (`pyramid_frontend/assets/asset.py`):
 * writing a compiled bundle under a content-addressed file name together with
 * a `.map` file naming it, and choosing the production or development tag.
 *
 * sha1 is a parameter returning a 40-character hex digest of the text (its
 * UTF-8 encoding is not modelled); the tag renderers, which the concrete
 * handlers define, are parameters too.
 */
module Assets {
  import opened Wrappers
  import opened Paths
  import opened FileSystem
  import opened Digests

  /** A Python 2 string: `unicode` text, or a byte `str`. */
  datatype Contents = Text(text: string) | Bytes(raw: seq<int>)

  datatype AssetError = AssertionError | Os(error: OsError)

  /** The file name a bundle is stored under: the entry point's base name, a dash,
      the digest of the contents, a dot and the handler's extension. */
  function HashedFileName(entryPoint: string, hash: Sha1Hex, extension: string): (r: string)
    ensures |r| == |Basename(entryPoint)| + 42 + |extension|
    ensures r[..|Basename(entryPoint)|] == Basename(entryPoint)
    ensures r[|r| - |extension| - 41..|r| - |extension| - 1] == hash
    ensures r[|r| - |extension|..] == extension
  {
    Basename(entryPoint) + "-" + hash + "." + extension
  }

  /** Names of the same entry point and extension are equal exactly when the
      digests are: a changed digest gives a new name (and a changed bundle does
      too as long as sha1 has no collision, which the parameter does not promise). */
  lemma HashedFileNameInjective(entryPoint: string, h1: Sha1Hex, h2: Sha1Hex, extension: string)
    ensures HashedFileName(entryPoint, h1, extension) == HashedFileName(entryPoint, h2, extension) <==> h1 == h2
  {
    if HashedFileName(entryPoint, h1, extension) == HashedFileName(entryPoint, h2, extension) {
      var r := HashedFileName(entryPoint, h1, extension);
      assert h1 == r[|r| - |extension| - 41..|r| - |extension| - 1] == h2;
    }
  }

  /** The name never holds a separator when the extension does not, so the bundle
      lands directly in the output directory. */
  lemma HashedFileNamePlain(entryPoint: string, hash: Sha1Hex, extension: string)
    requires NoSlash(extension)
    ensures NoSlash(HashedFileName(entryPoint, hash, extension)) && HashedFileName(entryPoint, hash, extension) != ""
  {
    var base := Basename(entryPoint);
    assert forall i :: 0 <= i < |hash| ==> IsHexDigit(hash[i]);
    NoSlashConcat(base, "-");
    NoSlashConcat(base + "-", hash);
    NoSlashConcat(base + "-" + hash, ".");
    NoSlashConcat(base + "-" + hash + ".", extension);
  }

  /** The filesystem after `write`, and what it returns or raises. On an exception
      the steps already done stay done. */
  datatype Written = Written(entries: Entries, result: Result<string, AssetError>)

  /** The mode `tag` renders in when none is given. */
  const DefaultProduction := true

  /** A handler: the URL path it serves and the extension of its bundles. */
  datatype Asset = Asset(urlPath: string, extension: string)
  {
    /** What `write(key, contents, entry_point, output_dir)` does: refuse byte
        strings, create the output directory if it is not one, write the bundle,
        then write `key.map` naming it. */
    function WriteEffect(m: Entries, key: string, contents: Contents, entryPoint: string, outputDir: string,
                         sha1: string -> Sha1Hex): Written
    {
      if !contents.Text? then Written(m, Err(AssertionError))
      else
        var fileName := HashedFileName(entryPoint, sha1(contents.text), extension);
        var filePath := Join(outputDir, fileName);
        var mapPath := Join(outputDir, key + ".map");
        match (if IsDirIn(m, outputDir) then Ok(m) else MakeDirs(m, outputDir))
        case Err(e) => Written(m, Err(Os(e)))
        case Ok(m1) =>
          match WriteFile(m1, filePath, contents.text)
          case Err(e) => Written(m1, Err(Os(e)))
          case Ok(m2) =>
            match WriteFile(m2, mapPath, fileName)
            case Err(e) => Written(m2, Err(Os(e)))
            case Ok(m3) => Written(m3, Ok(filePath))
    }

    /** `write(key, contents, entry_point, output_dir)` */
    method Write(disk: Disk, key: string, contents: Contents, entryPoint: string, outputDir: string,
                 sha1: string -> Sha1Hex) returns (r: Result<string, AssetError>)
      modifies disk
      ensures Written(disk.entries, r) == WriteEffect(old(disk.entries), key, contents, entryPoint, outputDir, sha1)
    {
      if !contents.Text? {
        return Err(AssertionError);
      }
      var hash := sha1(contents.text);
      var name := Basename(entryPoint);
      var fileName := name + "-" + hash + "." + extension;
      var filePath := Join(outputDir, fileName);
      if !disk.IsDir(outputDir) {
        var made := disk.Makedirs(outputDir);
        if made.Fail? {
          return Err(Os(made.error));
        }
      }
      assert fileName == HashedFileName(entryPoint, hash, extension);
      var written := disk.WriteText(filePath, contents.text);
      if written.Fail? {
        return Err(Os(written.error));
      }
      var mapPath := Join(outputDir, key + ".map");
      written := disk.WriteText(mapPath, fileName);
      if written.Fail? {
        return Err(Os(written.error));
      }
      return Ok(filePath);
    }

    /** `write_from_file(key, file_name, entry_point, output_dir)`: the source file
        is read as text, then written as by `write`. */
    method WriteFromFile(disk: Disk, key: string, fileName: string, entryPoint: string, outputDir: string,
                         sha1: string -> Sha1Hex) returns (r: Result<string, AssetError>)
      modifies disk
      ensures match ReadFile(old(disk.entries), fileName)
              case Err(e) => r == Err(Os(e)) && disk.entries == old(disk.entries)
              case Ok(text) => Written(disk.entries, r) == WriteEffect(old(disk.entries), key, Text(text), entryPoint, outputDir, sha1)
    {
      var read := disk.Read(fileName);
      if read.Err? {
        return Err(Os(read.error));
      }
      r := Write(disk, key, Text(read.value), entryPoint, outputDir, sha1);
    }

    /** `tag(theme, url, production)`: the production tag or the development one. */
    function Tag<Theme>(theme: Theme, url: string, production: bool,
                        tagProduction: (Theme, string) -> string, tagDevelopment: (Theme, string) -> string): string
    {
      if production then tagProduction(theme, url) else tagDevelopment(theme, url)
    }
  }

  /** Only the selected renderer matters: replacing the other one changes nothing,
      and the selected one's output is returned as it is. */
  lemma TagUsesOnlySelectedRenderer<Theme>(a: Asset, theme: Theme, url: string, production: bool,
                                           p1: (Theme, string) -> string, p2: (Theme, string) -> string,
                                           d1: (Theme, string) -> string, d2: (Theme, string) -> string)
    ensures production ==> a.Tag(theme, url, production, p1, d1) == a.Tag(theme, url, production, p1, d2) == p1(theme, url)
    ensures !production ==> a.Tag(theme, url, production, p1, d1) == a.Tag(theme, url, production, p2, d1) == d1(theme, url)
  {
  }

  /** Byte strings are refused before anything is touched. */
  lemma WriteRefusesBytes(a: Asset, m: Entries, key: string, raw: seq<int>, entryPoint: string, outputDir: string,
                          sha1: string -> Sha1Hex)
    ensures a.WriteEffect(m, key, Bytes(raw), entryPoint, outputDir, sha1) == Written(m, Err(AssertionError))
  {
  }

  /** `m1` is `m` with the directory `d` and possibly some of its ancestors added. */
  ghost predicate AddedDirs(m: Entries, m1: Entries, d: string)
  {
    && IsDirIn(m1, d)
    && (forall q :: q in m ==> q in m1 && m1[q] == m[q])
    && (forall q :: q in m1 && q !in m ==> m1[q] == Dir && (q == d || q in Ancestors(d)))
  }

  /** Preparing the output directory only adds directories. */
  lemma PreparedDirAddsDirs(m: Entries, d: string)
    requires (if IsDirIn(m, d) then Ok(m) else MakeDirs(m, d)).Ok?
    ensures AddedDirs(m, (if IsDirIn(m, d) then Ok(m) else MakeDirs(m, d)).value, d)
  {
  }

  /** Writing two files into a prepared directory. */
  lemma TwoFilesAdded(m: Entries, m1: Entries, d: string, filePath: string, mapPath: string,
                      text: string, fileName: string)
    requires AddedDirs(m, m1, d) && !IsDirIn(m1, filePath) && !IsDirIn(m1[filePath := File(text)], mapPath)
    ensures var w := m1[filePath := File(text)][mapPath := File(fileName)];
            && mapPath in w && w[mapPath] == File(fileName)
            && (filePath != mapPath ==> filePath in w && w[filePath] == File(text))
            && IsDirIn(w, d)
            && (forall q :: q in m && q != filePath && q != mapPath ==> q in w && w[q] == m[q])
            && (forall q :: q in w && q !in m ==> q == filePath || q == mapPath || (w[q] == Dir && (q == d || q in Ancestors(d))))
  {
  }

  /** After a successful `write`: the result is the bundle's path in the output
      directory; the map file names the bundle; the bundle holds the contents unless
      the map file is the same path; every other existing entry is as it was, and
      the only new entries besides the two files are the output directory and its
      ancestors, as directories. */
  lemma {:induction false} WriteOutcome(a: Asset, m: Entries, key: string, text: string, entryPoint: string,
                                        outputDir: string, sha1: string -> Sha1Hex)
    requires a.WriteEffect(m, key, Text(text), entryPoint, outputDir, sha1).result.Ok?
    ensures var w := a.WriteEffect(m, key, Text(text), entryPoint, outputDir, sha1);
            var fileName := HashedFileName(entryPoint, sha1(text), a.extension);
            var filePath, mapPath := Join(outputDir, fileName), Join(outputDir, key + ".map");
            && w.result.value == filePath
            && mapPath in w.entries && w.entries[mapPath] == File(fileName)
            && (filePath != mapPath ==> filePath in w.entries && w.entries[filePath] == File(text))
            && IsDirIn(w.entries, outputDir)
            && (forall q :: q in m && q != filePath && q != mapPath ==> q in w.entries && w.entries[q] == m[q])
            && (forall q :: q in w.entries && q !in m ==>
                  q == filePath || q == mapPath || (w.entries[q] == Dir && (q == outputDir || q in Ancestors(outputDir))))
  {
    var fileName := HashedFileName(entryPoint, sha1(text), a.extension);
    var filePath, mapPath := Join(outputDir, fileName), Join(outputDir, key + ".map");
    var made := if IsDirIn(m, outputDir) then Ok(m) else MakeDirs(m, outputDir);
    assert made.Ok?;
    var m1 := made.value;
    PreparedDirAddsDirs(m, outputDir);
    var m2 := m1[filePath := File(text)];
    assert WriteFile(m1, filePath, text) == Ok(m2);
    var m3 := m2[mapPath := File(fileName)];
    assert WriteFile(m2, mapPath, fileName) == Ok(m3);
    TwoFilesAdded(m, m1, outputDir, filePath, mapPath, text, fileName);
    assert a.WriteEffect(m, key, Text(text), entryPoint, outputDir, sha1) == Written(m3, Ok(filePath));
  }

  /** Into an existing plain output directory, with a plain key that is not the
      bundle's own name, `write` succeeds and produces
      `output_dir/<name>-<sha1>.<ext>` and `output_dir/<key>.map`. */
  lemma {:induction false} WriteIntoDirectory(a: Asset, m: Entries, key: string, text: string, entryPoint: string,
                                              outputDir: string, sha1: string -> Sha1Hex)
    requires outputDir != "" && !EndsWithSlash(outputDir) && IsDirIn(m, outputDir)
    requires NoSlash(a.extension) && NoSlash(key)
    requires var fileName := HashedFileName(entryPoint, sha1(text), a.extension);
             fileName != key + ".map" &&
             !IsDirIn(m, Join(outputDir, fileName)) && !IsDirIn(m, Join(outputDir, key + ".map"))
    ensures var fileName := HashedFileName(entryPoint, sha1(text), a.extension);
            var w := a.WriteEffect(m, key, Text(text), entryPoint, outputDir, sha1);
            && w.result == Ok(outputDir + "/" + fileName)
            && w.entries == m[outputDir + "/" + fileName := File(text)][outputDir + "/" + key + ".map" := File(fileName)]
  {
    var fileName := HashedFileName(entryPoint, sha1(text), a.extension);
    var mapName := key + ".map";
    HashedFileNamePlain(entryPoint, sha1(text), a.extension);
    NoSlashConcat(key, ".map");
    JoinStaysPlain(outputDir, fileName);
    JoinStaysPlain(outputDir, mapName);
    JoinSplits(outputDir, fileName);
    JoinSplits(outputDir, mapName);
    var filePath, mapPath := Join(outputDir, fileName), Join(outputDir, mapName);
    assert outputDir + "/" + key + ".map" == outputDir + "/" + mapName;
    var m2 := m[filePath := File(text)];
    assert ParentIsDir(m, filePath);
    assert WriteFile(m, filePath, text) == Ok(m2);
    JoinInjective(outputDir, fileName, mapName);
    assert ParentIsDir(m2, mapPath);
    assert !IsDirIn(m2, mapPath);
    assert WriteFile(m2, mapPath, fileName) == Ok(m2[mapPath := File(fileName)]);
  }
}
