/** The file system as the source's helpers see it (LuaModifier.cs, CopyFile,
    WriteToFile, AppendToFile and MoveFile, lines 395-470): each helper either
    does its one change or catches the exception and returns a message naming
    its kind. Which call fails, and how, is a parameter of the model. */
module Store {
  import opened Base
  import opened Text

  /** The contents of each existing file, by path. */
  type Files = map<String, String>

  /** The file operations the helpers perform. */
  datatype Op = Copy | Write | Append | Move

  /** One call of a helper: the operation and the path it writes to. */
  datatype Access = Access(op: Op, path: String)

  /** The exceptions the helpers tell apart (`OtherIo` is any other
      `IOException`), and any other exception with its own message. */
  datatype IoError = PathTooLong | DirectoryNotFound | FileNotFound | OtherIo | Unauthorized
                   | Unclassified(message: String)

  /** Which calls fail, and with which exception. */
  type Faults = map<Access, IoError>

  /** Why a step failed, for the failures the helpers and the three editing
      operations return: the exception a helper caught, a sentinel without
      its partner in the file at `path` (an END before any BEGINNING, a BEGINNING never closed), a mod script without lines, and the
      table of the localization script not found (the assignment of `name`,
      the `return {` opening, or its closing brace). Module Messages gives the
      source's text for each. */
  datatype Cause = IoFailed(op: Op, error: IoError)
                 | StrayEnd(path: String) | UnclosedBegin(path: String)
                 | NoLastLine(path: String)
                 | MissingTable(name: String) | NoReturn | NoTableEnd

  /** The causes whose text is blank: only an unclassified exception whose own
      message is blank. */
  predicate Silent(f: Option<Cause>) {
    f.None? || (f.value.IoFailed? && f.value.error.Unclassified? && IsBlank(f.value.error.message))
  }

  /** The files after a step, the calls the step made, in order, and its
      failure, if any. */
  datatype Effect<F> = Effect(files: Files, log: seq<Access>, failure: Option<F>)

  /** A helper call that fails changes no file; the others change `path` to
      `content` and nothing else. */
  function Apply(files: Files, faults: Faults, a: Access, content: String): (r: Effect<Cause>)
    ensures r.log == [a]
    ensures r.failure.Some? <==> a in faults
    ensures r.failure.Some? ==> r.files == files && r.failure.value == IoFailed(a.op, faults[a])
    ensures r.failure.None? ==> r.files == files[a.path := content]
  {
    if a in faults then Effect(files, [a], Some(IoFailed(a.op, faults[a])))
    else Effect(files[a.path := content], [a], None)
  }

  /** `File.Copy(source, destination, true)`, which fails with a
      `FileNotFoundException` when the source is missing. */
  function CopyFile(files: Files, faults: Faults, source: String, destination: String): (r: Effect<Cause>)
    ensures r.log == [Access(Copy, destination)]
    ensures r.failure.Some? <==> source !in files || Access(Copy, destination) in faults
    ensures source !in files ==> r.failure == Some(IoFailed(Copy, FileNotFound))
    ensures r.failure.None? ==> source in files && r.files == files[destination := files[source]]
    ensures r.failure.Some? ==> r.files == files
  {
    if source in files then Apply(files, faults, Access(Copy, destination), files[source])
    else Effect(files, [Access(Copy, destination)], Some(IoFailed(Copy, FileNotFound)))
  }

  /** `File.WriteAllText(path, content)`. */
  function WriteFile(files: Files, faults: Faults, path: String, content: String): (r: Effect<Cause>)
    ensures r.log == [Access(Write, path)]
    ensures r.failure.Some? <==> Access(Write, path) in faults
    ensures r.failure.None? ==> r.files == files[path := content]
    ensures r.failure.Some? ==> r.files == files
  {
    Apply(files, faults, Access(Write, path), content)
  }

  /** `File.AppendAllText(path, content)`, which creates a missing file. */
  function AppendFile(files: Files, faults: Faults, path: String, content: String): (r: Effect<Cause>)
    ensures r.log == [Access(Append, path)]
    ensures r.failure.Some? <==> Access(Append, path) in faults
    ensures r.failure.None? ==> r.files == files[path := (if path in files then files[path] else "") + content]
    ensures r.failure.Some? ==> r.files == files
  {
    Apply(files, faults, Access(Append, path), (if path in files then files[path] else "") + content)
  }

  /** Writing a temporary file and moving it over `path` (`File.Move(temp,
      path, true)`), as one step that fails as the move does. */
  function ReplaceFile(files: Files, faults: Faults, path: String, content: String): (r: Effect<Cause>)
    ensures r.log == [Access(Move, path)]
    ensures r.failure.Some? <==> Access(Move, path) in faults
    ensures r.failure.None? ==> r.files == files[path := content]
    ensures r.failure.Some? ==> r.files == files
  {
    Apply(files, faults, Access(Move, path), content)
  }
}
