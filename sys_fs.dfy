/** The part of the operating system the detector touches, as a value:
    the sysfs files it may read, the listing of the hwmon class
    directory, the exceptions a failed access raises, and the record of
    which accesses a call made. */
module SysFs {
  import opened Wrappers

  /** The exceptions that escape the detector. */
  datatype PyError =
    | FileNotFoundError(path: string)  // os.listdir or open() on a missing path
    | ValueError(literal: string)      // int(literal, base=16) on a malformed literal
    | TypeError(argument: string)      // a constructor call that omits a required argument

  /** Raw content of every regular file, by absolute path, and the entries
      of the hwmon class directory in the order the kernel lists them
      (None when that directory is missing and os.listdir raises). */
  datatype FileSystem = FileSystem(files: map<string, string>, hwmonEntries: Option<seq<string>>)

  /** One filesystem access: os.listdir, os.path.isfile or open(). */
  datatype Probe = ListDir(dir: string) | IsFile(path: string) | Open(path: string)

  /** os.path.join for a relative component without separators. */
  function Join(dir: string, name: string): string
  {
    dir + "/" + name
  }

  /** os.path.isfile. */
  predicate HasFile(fs: FileSystem, path: string)
  {
    path in fs.files
  }

  /** Reading in Python's default text mode translates every line ending
      ("\r\n" or a lone "\r") into "\n". */
  function UniversalNewlines(raw: string): (text: string)
    ensures |text| <= |raw|
    ensures text == [] <==> raw == []
    ensures forall i :: 0 <= i < |text| ==> text[i] != '\r'
    ensures (forall i :: 0 <= i < |raw| ==> raw[i] != '\r') ==> text == raw
    decreases |raw|
  {
    if raw == [] then []
    else if raw[0] == '\r' then
      "\n" + UniversalNewlines(if |raw| > 1 && raw[1] == '\n' then raw[2..] else raw[1..])
    else
      [raw[0]] + UniversalNewlines(raw[1..])
  }

  /** Exactly the one-character raw contents, and "\r\n", read back as a
      single character. */
  lemma {:induction false} UniversalNewlinesSingle(raw: string)
    ensures |UniversalNewlines(raw)| == 1 <==> |raw| == 1 || raw == "\r\n"
  {
    if raw != [] && raw[0] == '\r' && |raw| > 1 && raw[1] == '\n' {
      assert |UniversalNewlines(raw)| == 1 + |UniversalNewlines(raw[2..])|;
    }
  }

  /** What `open(path).read()` returns for a file that exists. */
  function Contents(fs: FileSystem, path: string): string
    requires HasFile(fs, path)
  {
    UniversalNewlines(fs.files[path])
  }

  /** `open(path).read()`: the text, or FileNotFoundError. */
  function ReadText(fs: FileSystem, path: string): Result<string, PyError>
  {
    if HasFile(fs, path) then Success(Contents(fs, path)) else Failure(FileNotFoundError(path))
  }
}
