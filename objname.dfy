/** The name of the object file process_file() writes: the input path with the text from
    its last '.' replaced by ".obj", or with ".obj" appended when it has no '.', refused when
    the name and its terminating NUL do not fit a 32-byte buffer. */
module OutputName {
  import opened Errors

  /** sizeof(objfilename) */
  const BufferSize: nat := 32

  /** strrchr(): the index of the last occurrence of `x` in `s`. */
  function LastIndex(s: string, x: char): (r: Option<nat>)
    ensures r.Some? ==> r.value < |s| && s[r.value] == x
    ensures r.Some? ==> forall j | r.value < j < |s| :: s[j] != x
    ensures r.None? <==> x !in s
  {
    if s == [] then None
    else if s[|s| - 1] == x then Some(|s| - 1)
    else
      assert s == s[..|s| - 1] + [s[|s| - 1]];
      LastIndex(s[..|s| - 1], x)
  }

  /** The last `x` of `stem + [x] + rest` is the one after `stem` when `rest` has none. */
  lemma LastIndexAfter(stem: string, x: char, rest: string)
    requires x !in rest
    ensures LastIndex(stem + [x] + rest, x) == Some(|stem|)
  {
    var p := stem + [x] + rest;
    var d := LastIndex(p, x);
    assert p[|stem|] == x;
    forall j | |stem| < j < |p| ensures p[j] != x {
      assert p[j] == rest[j - |stem| - 1];
    }
  }

  /** `stem + ".obj"` when it fits the buffer with its NUL, as both branches of the original
      check it. */
  function WithObj(stem: string): (r: Result<string>)
    ensures r.Ok? <==> |stem| + 5 <= BufferSize
    ensures r.Ok? ==> r.value == stem + ".obj" && |r.value| < BufferSize
    ensures r.Fail? ==> r.err == OutputNameTooLong
  {
    if |stem| + 1 + 3 + 1 > BufferSize then Fail(OutputNameTooLong) else Ok(stem + ".obj")
  }

  /** The derivation as process_file() writes it: the last '.' of the whole path, directories
      included, starts the part that is replaced. */
  function ObjFileName(path: string): (r: Result<string>)
    ensures r.Ok? ==> |r.value| < BufferSize && |r.value| >= 4
    ensures r.Ok? ==> r.value[|r.value| - 4..] == ".obj"
  {
    match LastIndex(path, '.')
    case Some(dot) => WithObj(path[..dot])
    case None => WithObj(path)
  }

  /** A path without a '.' gets ".obj" appended. */
  lemma ObjFileNameAppends(path: string)
    requires '.' !in path
    ensures ObjFileName(path) == WithObj(path)
    ensures |path| <= 27 ==> ObjFileName(path) == Ok(path + ".obj")
  {
  }

  /** The extension after the last '.' is replaced by "obj". */
  lemma ObjFileNameReplaces(stem: string, ext: string)
    requires '.' !in ext
    ensures ObjFileName(stem + "." + ext) == WithObj(stem)
  {
    LastIndexAfter(stem, '.', ext);
    assert (stem + "." + ext)[..|stem|] == stem;
  }

  /** A name that ends in ".obj" derives from the text before it. */
  lemma ObjFileNameOfObj(name: string)
    requires |name| >= 4 && name[|name| - 4..] == ".obj"
    ensures ObjFileName(name) == WithObj(name[..|name| - 4])
  {
    var stem := name[..|name| - 4];
    assert name == stem + "." + "obj";
    ObjFileNameReplaces(stem, "obj");
  }

  /** Deriving the name of a derived name changes nothing. */
  lemma ObjFileNameIdempotent(path: string)
    requires ObjFileName(path).Ok?
    ensures ObjFileName(ObjFileName(path).value) == ObjFileName(path)
  {
    var name := ObjFileName(path).value;
    ObjFileNameOfObj(name);
    assert name == name[..|name| - 4] + ".obj";
  }

  /** As written, a '.' in a directory name is taken for the start of the extension when
      the file name has none, and the file name is lost. */
  lemma ObjFileNameLosesFileName(dir: string, file: string)
    requires '.' in dir && '.' !in file && '/' !in file
    ensures ObjFileName(dir + "/" + file) == WithObj(dir[..LastIndex(dir, '.').value])
  {
    var d := LastIndex(dir, '.').value;
    var rest := dir[d + 1..] + "/" + file;
    assert dir + "/" + file == dir[..d] + "." + rest;
    assert '.' !in rest by {
      forall j | 0 <= j < |rest| ensures rest[j] != '.' {
        if j < |dir| - d - 1 { assert rest[j] == dir[d + 1 + j]; }
        else if j > |dir| - d - 1 { assert rest[j] == file[j - (|dir| - d)]; }
      }
    }
    ObjFileNameReplaces(dir[..d], rest);
  }

  /** For instance "./prog" gives ".obj". */
  lemma ObjFileNameDotSlash()
    ensures ObjFileName("./prog") == Ok(".obj")
  {
    assert "./prog" == "." + "/" + "prog";
    ObjFileNameLosesFileName(".", "prog");
    assert LastIndex(".", '.') == Some(0);
  }

  /** The derivation with the extension taken from the file name only: a '.' counts only
      when no '/' follows it. */
  function ObjFileNameFixed(path: string): (r: Result<string>)
    ensures r.Ok? ==> |r.value| < BufferSize && |r.value| >= 4
    ensures r.Ok? ==> r.value[|r.value| - 4..] == ".obj"
  {
    match LastIndex(path, '.')
    case Some(dot) =>
      if '/' in path[dot..] then WithObj(path) else WithObj(path[..dot])
    case None => WithObj(path)
  }

  /** The corrected derivation keeps the directory and the whole file name when the file
      name has no extension. */
  lemma ObjFileNameFixedKeepsFileName(dir: string, file: string)
    requires '.' !in file && '/' !in file
    ensures ObjFileNameFixed(dir + "/" + file) == WithObj(dir + "/" + file)
  {
    var p := dir + "/" + file;
    var d := LastIndex(p, '.');
    if d.Some? {
      assert p[|dir|] == '/';
      forall j | |dir| < j < |p| ensures p[j] != '.' {
        assert p[j] == file[j - |dir| - 1];
      }
      assert p[d.value..][|dir| - d.value] == '/';
    }
  }

  /** The corrected derivation still replaces the extension of the file name. */
  lemma ObjFileNameFixedReplaces(stem: string, ext: string)
    requires '.' !in ext && '/' !in ext
    ensures ObjFileNameFixed(stem + "." + ext) == WithObj(stem)
  {
    var p := stem + "." + ext;
    ObjFileNameReplaces(stem, ext);
    LastIndexAfter(stem, '.', ext);
    forall j | 0 <= j < |p[|stem|..]| ensures p[|stem|..][j] != '/' {
      if j > 0 { assert p[|stem|..][j] == ext[j - 1]; }
    }
  }

  /** Where no directory carries a '.', both derivations agree. */
  lemma ObjFileNameFixedAgrees(path: string)
    requires '/' !in path
    ensures ObjFileNameFixed(path) == ObjFileName(path)
  {
    var d := LastIndex(path, '.');
    if d.Some? {
      assert forall j | 0 <= j < |path[d.value..]| :: path[d.value..][j] == path[d.value + j];
    }
  }
}
