/** `image_animator/utils/helpers.py`: the check an image must pass before it
    is animated, and the output name for a rendered video. File existence
    and the random id are parameters. */
module ImageHelpers {
  import opened Wrappers
  import opened Text

  /** `FileExistsError` for a missing file, `ValueError` for an extension
      that is not supported. */
  datatype ImageError = FileMissing(path: string) | Unsupported(path: string)

  /** `supported_formats` */
  const SupportedFormats: seq<string> := [".png", ".jpg", ".jpeg"]

  /** `s.endswith(suffixes)` for a tuple of suffixes. */
  predicate EndsWithAny(s: string, suffixes: seq<string>) {
    exists k :: 0 <= k < |suffixes| && EndsWith(s, suffixes[k])
  }

  /** `validate_image`: existence first, then the extension of the lowered
      path. */
  function ValidateImage(path: string, isFile: string -> bool): Result<(), ImageError> {
    if !isFile(path) then Failure(FileMissing(path))
    else if !EndsWithAny(Lower(path), SupportedFormats) then Failure(Unsupported(path))
    else Success(())
  }

  /** `os.path.join(directory, name)` on POSIX for two parts: an absolute
      `name` replaces the directory, and a separator is inserted unless the
      directory is empty or already ends with one. */
  function PathJoin(directory: string, name: string): string {
    if name != [] && name[0] == '/' then name
    else if directory == [] || directory[|directory| - 1] == '/' then directory + name
    else directory + "/" + name
  }

  /** `f"{base_name}_{unique_id}{extension}"` */
  function UniqueName(baseName: string, id: string, extension: string): string {
    baseName + "_" + id + extension
  }

  /** `generate_unique_filename`, with `uuid4().hex` passed in as `id`. */
  function GenerateUniqueFilename(baseName: string, directory: string, id: string, extension: string): string {
    PathJoin(directory, UniqueName(baseName, id, extension))
  }

  /** The default `extension='.mp4'`. */
  function GenerateUniqueVideoFilename(baseName: string, directory: string, id: string): string {
    GenerateUniqueFilename(baseName, directory, id, ".mp4")
  }

  // ---------------------------------------------------------------------

  /** A missing file is reported as missing whatever its extension; an
      existing one is accepted exactly when its lowered path ends with
      `.png`, `.jpg` or `.jpeg`, and rejected as unsupported otherwise. */
  lemma ValidateImageCases(path: string, isFile: string -> bool)
    ensures ValidateImage(path, isFile) == Failure(FileMissing(path)) <==> !isFile(path)
    ensures ValidateImage(path, isFile).Success? <==>
              isFile(path) && (EndsWith(Lower(path), ".png") || EndsWith(Lower(path), ".jpg") || EndsWith(Lower(path), ".jpeg"))
    ensures ValidateImage(path, isFile) == Failure(Unsupported(path)) <==>
              isFile(path) && !EndsWith(Lower(path), ".png") && !EndsWith(Lower(path), ".jpg") && !EndsWith(Lower(path), ".jpeg")
  {
    var low := Lower(path);
    var v := ValidateImage(path, isFile);
    assert v == (if !isFile(path) then Failure(FileMissing(path))
                 else if !EndsWithAny(low, SupportedFormats) then Failure(Unsupported(path))
                 else Success(()));
    if EndsWith(low, ".png") {
      assert EndsWith(low, SupportedFormats[0]);
    } else if EndsWith(low, ".jpg") {
      assert EndsWith(low, SupportedFormats[1]);
    } else if EndsWith(low, ".jpeg") {
      assert EndsWith(low, SupportedFormats[2]);
    }
  }

  /** The check looks at the path only through its lowering: two paths that
      lower alike, and exist alike, are accepted alike and rejected for the
      same reason. */
  lemma ValidateIgnoresCase(p: string, q: string, isFile: string -> bool)
    requires Lower(p) == Lower(q) && isFile(p) == isFile(q)
    ensures ValidateImage(p, isFile).Success? <==> ValidateImage(q, isFile).Success?
    ensures ValidateImage(p, isFile) == Failure(FileMissing(p)) <==> ValidateImage(q, isFile) == Failure(FileMissing(q))
    ensures ValidateImage(p, isFile) == Failure(Unsupported(p)) <==> ValidateImage(q, isFile) == Failure(Unsupported(q))
  {
    ValidateImageCases(p, isFile);
    ValidateImageCases(q, isFile);
  }

  /** The joined path ends with the generated name, and starts with the
      directory unless the name is absolute. */
  lemma PathJoinShape(directory: string, name: string)
    ensures EndsWith(PathJoin(directory, name), name)
    ensures !(name != [] && name[0] == '/') ==> PathJoin(directory, name)[..|directory|] == directory
  {
    var r := PathJoin(directory, name);
    assert r[|r| - |name|..] == name;
  }

  /** The generated path ends with `base_name + "_" + id + extension`, so by
      default with `.mp4`. */
  lemma GeneratedNameShape(baseName: string, directory: string, id: string, extension: string)
    ensures EndsWith(GenerateUniqueFilename(baseName, directory, id, extension), baseName + "_" + id + extension)
    ensures EndsWith(GenerateUniqueFilename(baseName, directory, id, extension), extension)
    ensures EndsWith(GenerateUniqueVideoFilename(baseName, directory, id), ".mp4")
  {
    var name := UniqueName(baseName, id, extension);
    var r := GenerateUniqueFilename(baseName, directory, id, extension);
    PathJoinShape(directory, name);
    assert r[|r| - |extension|..] == name[|name| - |extension|..];
    var video := UniqueName(baseName, id, ".mp4");
    var v := GenerateUniqueVideoFilename(baseName, directory, id);
    PathJoinShape(directory, video);
    assert v[|v| - 4..] == video[|video| - 4..];
  }

  /** Joining onto the same directory keeps different names apart. */
  lemma PathJoinInjective(directory: string, a: string, b: string)
    requires (a != [] && a[0] == '/') <==> (b != [] && b[0] == '/')
    requires PathJoin(directory, a) == PathJoin(directory, b)
    ensures a == b
  {
    var prefix := if a != [] && a[0] == '/' then []
                  else if directory == [] || directory[|directory| - 1] == '/' then directory
                  else directory + "/";
    assert PathJoin(directory, a) == prefix + a;
    assert PathJoin(directory, b) == prefix + b;
    assert a == (prefix + a)[|prefix|..];
    assert b == (prefix + b)[|prefix|..];
  }

  /** The id can be read back from the name, so different ids give
      different names. */
  lemma UniqueNameInjective(baseName: string, id1: string, id2: string, extension: string)
    requires UniqueName(baseName, id1, extension) == UniqueName(baseName, id2, extension)
    ensures id1 == id2
  {
    var n1, n2 := UniqueName(baseName, id1, extension), UniqueName(baseName, id2, extension);
    var p := |baseName| + 1;
    assert n1[p..|n1| - |extension|] == id1;
    assert n2[p..|n2| - |extension|] == id2;
  }

  /** Different ids give different paths for the same base name, directory
      and extension, so the name is as unique as the id. */
  lemma DistinctIdsDistinctNames(baseName: string, directory: string, id1: string, id2: string, extension: string)
    ensures (GenerateUniqueFilename(baseName, directory, id1, extension)
             == GenerateUniqueFilename(baseName, directory, id2, extension)) ==> id1 == id2
  {
    var n1, n2 := UniqueName(baseName, id1, extension), UniqueName(baseName, id2, extension);
    assert n1[0] == n2[0] by {
      if baseName == [] {
        assert n1[0] == '_' && n2[0] == '_';
      } else {
        assert n1[0] == baseName[0] && n2[0] == baseName[0];
      }
    }
    if PathJoin(directory, n1) == PathJoin(directory, n2) {
      PathJoinInjective(directory, n1, n2);
      UniqueNameInjective(baseName, id1, id2, extension);
    }
  }
}
