/** The local filesystem as the key manager sees it: a map from full path to
    node, the two path operations the code relies on (`PathBuf::join` and
    `Path::with_extension("pub")`), and the read / write / chmod calls. */
module Disk {
  import opened Common

  type Path = string

  /** A regular file carries its bytes and its Unix permission bits. */
  datatype Node = File(data: Bytes, mode: nat) | Directory

  type Files = map<Path, Node>

  /** 0o600: owner read/write, the mode given to written private keys. */
  const PrivateMode: nat := 384
  /** 0o644: world readable, the mode given to written public keys. */
  const PublicMode: nat := 420
  /** Mode of a file that a write creates: 0o666 under the usual umask 022. */
  const CreateMode: nat := 420

  /** `dir.join(name)`: an absolute `name` replaces `dir`; otherwise exactly
      one separator ends up between the two. */
  function Join(dir: Path, name: string): (p: Path)
  {
    if |name| > 0 && name[0] == '/' then name
    else if dir == [] || dir[|dir| - 1] == '/' then dir + name
    else dir + "/" + name
  }

  /** The joined path ends with the name, and an absolute name is the whole
      result. */
  lemma JoinEndsWithName(dir: Path, name: string)
    ensures var p := Join(dir, name);
            |name| <= |p| && p[|p| - |name|..] == name
            && (|name| > 0 && name[0] == '/' ==> p == name)
  {
    var p := Join(dir, name);
    if !(|name| > 0 && name[0] == '/') {
      assert p == JoinPrefix(dir) + name;
    }
  }

  /** What `dir.join(name)` puts before a relative `name`. */
  function JoinPrefix(dir: Path): Path
  {
    if dir == [] || dir[|dir| - 1] == '/' then dir else dir + "/"
  }

  /** A relative name is appended to the same prefix whatever it is, so two
      relative names join to the same path only if they are equal. */
  lemma JoinRelative(dir: Path, name: string)
    requires name == [] || name[0] != '/'
    ensures Join(dir, name) == JoinPrefix(dir) + name
  {
  }

  /** Appending text that does not start a new root to a joined name
      appends it to the joined path. */
  lemma JoinExtend(dir: Path, name: string, suffix: string)
    requires suffix == [] || suffix[0] != '/'
    ensures Join(dir, name + suffix) == Join(dir, name) + suffix
  {
    if |name| > 0 && name[0] == '/' {
      assert (name + suffix)[0] == '/';
    } else {
      assert name + suffix == [] || (name + suffix)[0] != '/' by {
        if name == [] {
          assert name + suffix == suffix;
        } else {
          assert (name + suffix)[0] == name[0];
        }
      }
      JoinRelative(dir, name);
      JoinRelative(dir, name + suffix);
      assert JoinPrefix(dir) + (name + suffix) == JoinPrefix(dir) + name + suffix;
    }
  }

  /** `path.is_dir()`. */
  predicate IsDirectory(files: Files, p: Path)
  {
    p in files && files[p].Directory?
  }

  /** Index of the last occurrence of `c` in `s`, or -1. */
  function LastIndexOf(s: string, c: char): (k: int)
    ensures -1 <= k < |s|
    ensures k >= 0 ==> s[k] == c
    ensures forall j :: k < j < |s| ==> s[j] != c
  {
    if |s| == 0 then -1
    else if s[|s| - 1] == c then |s| - 1
    else LastIndexOf(s[..|s| - 1], c)
  }

  lemma {:induction false} LastIndexOfAppend(a: string, b: string, c: char)
    ensures LastIndexOf(a + b, c)
         == if LastIndexOf(b, c) >= 0 then |a| + LastIndexOf(b, c) else LastIndexOf(a, c)
  {
    if |b| > 0 {
      assert (a + b)[..|a + b| - 1] == a + b[..|b| - 1];
      if b[|b| - 1] != c {
        LastIndexOfAppend(a, b[..|b| - 1], c);
      }
    } else {
      assert a + b == a;
    }
  }

  /** Start of the last path component. */
  function ComponentStart(p: Path): nat
  {
    LastIndexOf(p, '/') + 1
  }

  /** True when the last component has an extension: a dot that is not its
      first character (a leading dot marks a hidden file, not an extension). */
  predicate HasExtension(p: Path)
  {
    LastIndexOf(p, '.') > LastIndexOf(p, '/') + 1
  }

  /** `path.file_stem()`: the last component without its extension. */
  function FileStem(p: Path): (stem: string)
    ensures '/' !in stem
    ensures ComponentStart(p) + |stem| <= |p| && p[ComponentStart(p)..ComponentStart(p) + |stem|] == stem
    ensures var rest := p[ComponentStart(p) + |stem|..];
            rest == [] || (stem != [] && rest[0] == '.' && '.' !in rest[1..])
  {
    if HasExtension(p) then p[ComponentStart(p)..LastIndexOf(p, '.')]
    else p[ComponentStart(p)..]
  }

  /** `path.with_extension("pub")`: the extension of the last component, if
      any, is replaced by "pub"; otherwise ".pub" is appended. */
  function PubPath(p: Path): (q: Path)
  {
    if HasExtension(p) then p[..LastIndexOf(p, '.')] + ".pub" else p + ".pub"
  }

  /** The public path ends in ".pub" and keeps the path up to the cut; when
      something was cut, it started with the extension dot of the last
      component. */
  lemma PubPathShape(p: Path)
    ensures var q := PubPath(p);
            && |q| >= 4 && q[|q| - 4..] == ".pub"
            && |q| - 4 <= |p| && q[..|q| - 4] == p[..|q| - 4]
            && (|q| - 4 < |p| ==> p[|q| - 4] == '.' && '/' !in p[|q| - 4..])
  {
    var q := PubPath(p);
    if HasExtension(p) {
      var k := LastIndexOf(p, '.');
      assert q == p[..k] + ".pub" && |q| - 4 == k;
      assert q[..k] == p[..k] && q[k..] == ".pub";
      var tail := p[k..];
      assert forall j :: 0 <= j < |tail| ==> tail[j] == p[k + j] && k + j > LastIndexOf(p, '/');
      assert p[k] == '.' && '/' !in tail;
    } else {
      assert q == p + ".pub" && |q| - 4 == |p|;
      assert q[..|p|] == p && q[|p|..] == ".pub";
    }
  }

  /** The public path of a key is the directory part, the file stem, ".pub". */
  lemma PubPathIsStemPub(p: Path)
    ensures PubPath(p) == p[..ComponentStart(p)] + FileStem(p) + ".pub"
  {
    var s := ComponentStart(p);
    if HasExtension(p) {
      assert p[..LastIndexOf(p, '.')] == p[..s] + p[s..LastIndexOf(p, '.')];
    } else {
      assert p == p[..s] + p[s..];
    }
  }

  /** For a name without a dot, the public path is the joined path with
      ".pub" appended, whatever the directory holds. */
  lemma {:induction false} PubPathOfDotlessName(dir: Path, name: string)
    requires '.' !in name
    ensures PubPath(Join(dir, name)) == Join(dir, name) + ".pub"
  {
    var p := Join(dir, name);
    assert LastIndexOf(name, '.') == -1;
    if |name| > 0 && name[0] == '/' {
      assert p == name;
    } else {
      var prefix := if dir == [] || dir[|dir| - 1] == '/' then dir else dir + "/";
      assert p == prefix + name;
      LastIndexOfAppend(prefix, name, '.');
      LastIndexOfAppend(prefix, name, '/');
      if prefix != [] {
        assert prefix[|prefix| - 1] == '/';
        assert LastIndexOf(prefix, '/') == |prefix| - 1;
      }
    }
  }

  /** Text without a dot or a separator appended to a path that has an
      extension only lengthens that extension, so the public path is the
      same. */
  lemma PubPathIgnoresPlainSuffix(p: Path, suffix: string)
    requires HasExtension(p)
    requires '.' !in suffix && '/' !in suffix
    ensures PubPath(p + suffix) == PubPath(p)
  {
    LastIndexOfAppend(p, suffix, '.');
    LastIndexOfAppend(p, suffix, '/');
    assert LastIndexOf(suffix, '.') == -1;
    assert LastIndexOf(suffix, '/') == -1;
    assert (p + suffix)[..LastIndexOf(p, '.')] == p[..LastIndexOf(p, '.')];
  }

  /** `fs::read`: the bytes of a regular file; a missing path or a directory
      is an I/O error. */
  function ReadFile(files: Files, p: Path): (r: Result<Bytes>)
    ensures r.Ok? <==> p in files && files[p].File?
    ensures r.Ok? ==> r.value == files[p].data
  {
    if p !in files then Err(Io("No such file or directory"))
    else if files[p].Directory? then Err(Io("Is a directory"))
    else Ok(files[p].data)
  }

  /** `fs::write` (and `File::create` + `write_all`): replaces the content of
      a regular file, keeping its mode, or creates it with `CreateMode`;
      writing over a directory fails and changes nothing. */
  function WriteFile(files: Files, p: Path, data: Bytes): (r: (Result<()>, Files))
    ensures r.0.Ok? <==> !(p in files && files[p].Directory?)
    ensures r.0.Ok? ==> r.1.Keys == files.Keys + {p} && r.1[p].File? && r.1[p].data == data
    ensures forall q :: q != p ==> (q in r.1 <==> q in files) && (q in files ==> r.1[q] == files[q])
    ensures r.0.Err? ==> r.1 == files
  {
    if p in files && files[p].Directory? then (Err(Io("Is a directory")), files)
    else
      var mode := if p in files then files[p].mode else CreateMode;
      (Ok(()), files[p := File(data, mode)])
  }

  /** `fs::set_permissions` after `fs::metadata`: sets the mode of a regular
      file; a missing path is an I/O error; a directory is left as it is. */
  function SetModeOf(files: Files, p: Path, mode: nat): (r: (Result<()>, Files))
    ensures r.0.Ok? <==> p in files
    ensures p in files && files[p].File? ==> r.1 == files[p := File(files[p].data, mode)]
    ensures !(p in files && files[p].File?) ==> r.1 == files
  {
    if p !in files then (Err(Io("No such file or directory")), files)
    else if files[p].Directory? then (Ok(()), files)
    else (Ok(()), files[p := File(files[p].data, mode)])
  }

  /** The filesystem the program runs against; every module that touches the
      disk receives this object and changes only `files`. */
  class FileSystem {
    var files: Files

    constructor (initial: Files)
      ensures files == initial
    {
      files := initial;
    }

    /** `path.exists()`: true for files and directories alike. */
    function Exists(p: Path): (b: bool)
      reads this
      ensures b <==> p in files
    {
      p in files
    }

    method Read(p: Path) returns (r: Result<Bytes>)
      ensures r == ReadFile(files, p)
    {
      r := ReadFile(files, p);
    }

    method Write(p: Path, data: Bytes) returns (r: Result<()>)
      modifies this
      ensures (r, files) == WriteFile(old(files), p, data)
    {
      var w := WriteFile(files, p, data);
      r, files := w.0, w.1;
    }

    method SetMode(p: Path, mode: nat) returns (r: Result<()>)
      modifies this
      ensures (r, files) == SetModeOf(old(files), p, mode)
    {
      var s := SetModeOf(files, p, mode);
      r, files := s.0, s.1;
    }
  }
}
