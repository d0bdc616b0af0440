/**
 * The five confirmation-gated filesystem tools: list_directory, read_file,
 * write_file, create_directory and edit_file. The disk is a map from file
 * path to content plus a set of directories; the user's answer and every
 * failure of a system call come in as parameters.
 */
module FileSystem {
  import opened Base
  import opened Gate
  import opened Replace

  /** A resolved path, one component per directory level; `[]` is the working directory. */
  type Path = seq<string>

  /** The components joined by "/", the working directory written ".". */
  function PathText(p: Path): string
  {
    if |p| == 0 then "."
    else if |p| == 1 then p[0]
    else PathText(p[..|p| - 1]) + "/" + p[|p| - 1]
  }

  /** `path.dirname`: the directory that holds `p`. */
  function Parent(p: Path): (r: Path)
    ensures |p| == 0 ==> r == []
    ensures |p| > 0 ==> |r| == |p| - 1 && p == r + [p[|p| - 1]]
  {
    if |p| == 0 then [] else p[..|p| - 1]
  }

  /** Every directory `mkdir(p, { recursive: true })` makes sure of: `p` and each of its prefixes. */
  function Ancestors(p: Path): (r: set<Path>)
    ensures p in r && [] in r
    ensures forall d :: d in r ==> Parent(d) in r
    ensures forall d :: d in r ==> |d| <= |p| && d == p[..|d|]
  {
    var r := set i | 0 <= i <= |p| :: p[..i];
    assert p[..|p|] == p && p[..0] == [];
    forall d | d in r ensures Parent(d) in r {
      var i :| 0 <= i <= |p| && d == p[..i];
      if i > 0 {
        assert Parent(d) == p[..i - 1];
      }
    }
    r
  }

  /** One element of the array list_directory returns. */
  datatype DirEntry = DirEntry(name: string, isDirectory: bool)

  /** What a tool hands back to the model: text, or list_directory's entries. */
  datatype Output = Text(text: string) | Listing(entries: set<DirEntry>)

  /** The outcome of a reading system call. */
  datatype Result<T> = Ok(value: T) | Err(fault: Fault)

  /** The fault Node reports when `syscall` is given a path that does not exist. */
  function NoEntry(syscall: string, p: Path): Fault
  {
    Fault("ENOENT", "ENOENT: no such file or directory, " + syscall + " '" + PathText(p) + "'")
  }

  const ListCancelled := "Directory listing cancelled by user."
  const ReadCancelled := "File reading cancelled by user."
  const WriteCancelled := "File writing cancelled by user."
  const CreateCancelled := "Directory creation cancelled by user."

  function ListError(p: Path, message: string): string
  {
    "Error listing directory " + PathText(p) + ": " + message
  }

  function ReadError(p: Path, message: string): string
  {
    "Error reading file " + PathText(p) + ": " + message
  }

  function WriteError(p: Path, message: string): string
  {
    "Error writing file " + PathText(p) + ": " + message
  }

  function WriteDone(p: Path): string
  {
    "File written successfully to " + PathText(p)
  }

  function CreateError(p: Path, message: string): string
  {
    "Error creating directory " + PathText(p) + ": " + message
  }

  function CreateDone(p: Path): string
  {
    "Directory created successfully at " + PathText(p)
  }

  function AlreadyExists(p: Path): string
  {
    "Directory already exists at " + PathText(p)
  }

  /** edit_file's answer to a declined request, which carries the raw answer as feedback. */
  function EditCancelled(answer: string): string
  {
    "File editing cancelled by user." + "\n      feedback: " + answer + "\n      "
  }

  function EditError(p: Path, message: string): string
  {
    "Error editing file " + PathText(p) + ": " + message
  }

  function NotFoundWarning(searchText: string, p: Path): string
  {
    "Warning: search_text \"" + searchText + "\" not found in " + PathText(p) + ". File not modified."
  }

  function EditDone(p: Path): string
  {
    "File " + PathText(p) + " edited successfully."
  }

  /** The declined edit_file result holds the user's answer verbatim. */
  lemma EditCancelledCarriesFeedback(answer: string)
    ensures exists i :: OccursAt(EditCancelled(answer), answer, i)
  {
    var prefix := "File editing cancelled by user." + "\n      feedback: ";
    var m := EditCancelled(answer);
    assert m == prefix + answer + "\n      ";
    assert m[|prefix|..|prefix| + |answer|] == answer;
    assert OccursAt(m, answer, |prefix|);
  }

  /** The declined edit_file result differs from every other edit_file result. */
  lemma EditCancelledIsDistinct(answer: string, p: Path, searchText: string, message: string)
    ensures EditCancelled(answer) != EditDone(p)
    ensures EditCancelled(answer) != NotFoundWarning(searchText, p)
    ensures EditCancelled(answer) != EditError(p, message)
  {
    var c := EditCancelled(answer);
    var first := "File editing cancelled by user.";
    var tail := "\n      ";
    assert c == first + ("\n      feedback: " + answer + tail);
    assert c[0] == first[0] == 'F';
    assert c == (first + "\n      feedback: " + answer) + tail;
    assert c[|c| - 1] == tail[|tail| - 1] == ' ';
    var e := EditError(p, message);
    assert e == "Error editing file " + (PathText(p) + ": " + message);
    assert e[0] == 'E';
    assert NotFoundWarning(searchText, p)[0] == 'W';
    assert EditDone(p)[|EditDone(p)| - 1] == '.';
  }

  /** The disk the tools act on. */
  class Disk {
    /** The content of every file, by path. */
    var files: map<Path, string>
    /** Every directory, the working directory included. */
    var dirs: set<Path>

    /** The working directory exists and every file and directory sits in an existing directory. */
    ghost predicate Valid()
      reads this
    {
      [] in dirs &&
      (forall d :: d in dirs ==> Parent(d) in dirs) &&
      (forall p :: p in files ==> Parent(p) in dirs)
    }

    /** An empty working directory. */
    constructor ()
      ensures Valid()
      ensures files == map[] && dirs == {[]}
    {
      files := map[];
      dirs := {[]};
    }

    /** The entries directly inside directory `d`. */
    function Children(d: Path): set<DirEntry>
      reads this
    {
      (set p | p in files && |p| == |d| + 1 && p[..|d|] == d :: DirEntry(p[|d|], false)) +
      (set q | q in dirs && |q| == |d| + 1 && q[..|d|] == d :: DirEntry(q[|d|], true))
    }

    /** `fs.readdir(d, { withFileTypes: true })`, failing with `fault` when one is given. */
    function ReadDir(d: Path, fault: Option<Fault>): (r: Result<set<DirEntry>>)
      reads this
      ensures r.Ok? <==> fault.None? && d in dirs
      ensures r.Err? && fault.None? ==> r.fault.code == "ENOENT"
      ensures r.Ok? ==> forall e :: e in r.value ==>
                if e.isDirectory then d + [e.name] in dirs else d + [e.name] in files
    {
      if fault.Some? then Err(fault.value)
      else if d !in dirs then Err(NoEntry("scandir", d))
      else ChildrenSound(d); Ok(Children(d))
    }

    /** `fs.readFile(p, "utf-8")`, failing with `fault` when one is given. */
    function ReadFile(p: Path, fault: Option<Fault>): (r: Result<string>)
      reads this
      ensures r.Ok? <==> fault.None? && p in files
      ensures r.Ok? ==> r.value == files[p]
      ensures r.Err? && fault.None? ==> r.fault.code == "ENOENT"
    {
      if fault.Some? then Err(fault.value)
      else if p !in files then Err(NoEntry("open", p))
      else Ok(files[p])
    }

    /** A listed entry names exactly a file or a directory one level below `d`. */
    lemma ChildrenExact(d: Path, name: string)
      ensures DirEntry(name, false) in Children(d) <==> d + [name] in files
      ensures DirEntry(name, true) in Children(d) <==> d + [name] in dirs
    {
      var p := d + [name];
      assert |p| == |d| + 1 && p[..|d|] == d && p[|d|] == name;
      if DirEntry(name, false) in Children(d) {
        var q :| q in files && |q| == |d| + 1 && q[..|d|] == d && DirEntry(q[|d|], false) == DirEntry(name, false);
        assert q == p;
      }
      if DirEntry(name, true) in Children(d) {
        var q :| q in dirs && |q| == |d| + 1 && q[..|d|] == d && DirEntry(q[|d|], true) == DirEntry(name, true);
        assert q == p;
      }
    }

    /** Every listed entry is a file or a directory, as it claims, one level below `d`. */
    lemma ChildrenSound(d: Path)
      ensures forall e :: e in Children(d) ==>
                if e.isDirectory then d + [e.name] in dirs else d + [e.name] in files
    {
      forall e | e in Children(d)
        ensures if e.isDirectory then d + [e.name] in dirs else d + [e.name] in files
      {
        ChildrenExact(d, e.name);
      }
    }

    /** `fs.mkdir(p, { recursive: true })`; on success `p` and all its prefixes exist. */
    method MakeDirectory(p: Path, fault: Option<Fault>) returns (failure: Option<Fault>)
      requires Valid()
      modifies this
      ensures Valid()
      ensures failure == fault
      ensures files == old(files)
      ensures dirs == if fault.Some? then old(dirs) else old(dirs) + Ancestors(p)
    {
      failure := fault;
      if fault.None? {
        dirs := dirs + Ancestors(p);
      }
    }

    /** `fs.writeFile(p, content, "utf-8")`; on success `p` holds `content`. */
    method WriteFileAt(p: Path, content: string, fault: Option<Fault>) returns (failure: Option<Fault>)
      requires Valid() && Parent(p) in dirs
      modifies this
      ensures Valid()
      ensures failure == fault
      ensures dirs == old(dirs)
      ensures files == if fault.Some? then old(files) else old(files)[p := content]
    {
      failure := fault;
      if fault.None? {
        files := files[p := content];
      }
    }

    /** list_directory: after a "y"/"Y" answer, the entries of `dirPath` or an error text. */
    method ListDirectory(dirPath: Path, answer: string, fault: Option<Fault>) returns (out: Output)
      ensures !Affirmative(answer) ==> out == Text(ListCancelled)
      ensures Affirmative(answer) && fault.Some? ==> out == Text(ListError(dirPath, fault.value.message))
      ensures Affirmative(answer) && fault.None? && dirPath !in dirs ==>
                out == Text(ListError(dirPath, NoEntry("scandir", dirPath).message))
      ensures Affirmative(answer) && fault.None? && dirPath in dirs ==> out == Listing(Children(dirPath))
    {
      if !Affirmative(answer) {
        return Text(ListCancelled);
      }
      var entries := ReadDir(dirPath, fault);
      match entries
      case Ok(es) =>
        out := Listing(es);
      case Err(f) =>
        out := Text(ListError(dirPath, f.message));
    }

    /** read_file: after a "y"/"Y" answer, the file's content or an error text. */
    method ReadFileTool(filePath: Path, answer: string, fault: Option<Fault>) returns (out: string)
      ensures !Affirmative(answer) ==> out == ReadCancelled
      ensures Affirmative(answer) && fault.Some? ==> out == ReadError(filePath, fault.value.message)
      ensures Affirmative(answer) && fault.None? && filePath !in files ==>
                out == ReadError(filePath, NoEntry("open", filePath).message)
      ensures Affirmative(answer) && fault.None? && filePath in files ==> out == files[filePath]
    {
      if !Affirmative(answer) {
        return ReadCancelled;
      }
      var content := ReadFile(filePath, fault);
      match content
      case Ok(text) =>
        out := text;
      case Err(f) =>
        out := ReadError(filePath, f.message);
    }

    /**
     * write_file: after a "y"/"Y" answer, create the parent directory
     * (recursively), then write `content` to `filePath`.
     */
    method WriteFile(filePath: Path, content: string, answer: string,
                     mkdirFault: Option<Fault>, writeFault: Option<Fault>) returns (out: string)
      requires Valid()
      modifies this
      ensures Valid()
      ensures !Affirmative(answer) ==>
                out == WriteCancelled && files == old(files) && dirs == old(dirs)
      ensures Affirmative(answer) && mkdirFault.Some? ==>
                out == WriteError(filePath, mkdirFault.value.message) &&
                files == old(files) && dirs == old(dirs)
      ensures Affirmative(answer) && mkdirFault.None? ==>
                dirs == old(dirs) + Ancestors(Parent(filePath)) && Parent(filePath) in dirs
      ensures Affirmative(answer) && mkdirFault.None? && writeFault.Some? ==>
                out == WriteError(filePath, writeFault.value.message) && files == old(files)
      ensures Affirmative(answer) && mkdirFault.None? && writeFault.None? ==>
                out == WriteDone(filePath) && files == old(files)[filePath := content] &&
                filePath in files && files[filePath] == content
    {
      if !Affirmative(answer) {
        return WriteCancelled;
      }
      var dir := Parent(filePath);
      var failure := MakeDirectory(dir, mkdirFault);
      if failure.Some? {
        return WriteError(filePath, failure.value.message);
      }
      failure := WriteFileAt(filePath, content, writeFault);
      if failure.Some? {
        return WriteError(filePath, failure.value.message);
      }
      out := WriteDone(filePath);
    }

    /**
     * create_directory: after a "y"/"Y" answer, create `dirPath` recursively;
     * a failure coded EEXIST is reported as an existing directory.
     */
    method CreateDirectory(dirPath: Path, answer: string, fault: Option<Fault>) returns (out: string)
      requires Valid()
      modifies this
      ensures Valid()
      ensures files == old(files)
      ensures !Affirmative(answer) ==> out == CreateCancelled && dirs == old(dirs)
      ensures Affirmative(answer) && fault.Some? && fault.value.code == "EEXIST" ==>
                out == AlreadyExists(dirPath) && dirs == old(dirs)
      ensures Affirmative(answer) && fault.Some? && fault.value.code != "EEXIST" ==>
                out == CreateError(dirPath, fault.value.message) && dirs == old(dirs)
      ensures Affirmative(answer) && fault.None? ==>
                out == CreateDone(dirPath) && dirs == old(dirs) + Ancestors(dirPath) && dirPath in dirs
    {
      if !Affirmative(answer) {
        return CreateCancelled;
      }
      var failure := MakeDirectory(dirPath, fault);
      if failure.Some? {
        if failure.value.code == "EEXIST" {
          return AlreadyExists(dirPath);
        }
        return CreateError(dirPath, failure.value.message);
      }
      out := CreateDone(dirPath);
    }

    /**
     * edit_file: after a "y"/"Y" answer, read the file, replace the first
     * occurrence of `searchText`, and write the file back only if that
     * changed its content.
     */
    method EditFile(filePath: Path, searchText: string, replaceWith: string, answer: string,
                    readFault: Option<Fault>, writeFault: Option<Fault>) returns (out: string)
      requires Valid()
      modifies this
      ensures Valid()
      ensures dirs == old(dirs)
      ensures !Affirmative(answer) ==> out == EditCancelled(answer) && files == old(files)
      ensures Affirmative(answer) && readFault.Some? ==>
                out == EditError(filePath, readFault.value.message) && files == old(files)
      ensures Affirmative(answer) && readFault.None? && filePath !in old(files) ==>
                out == EditError(filePath, NoEntry("open", filePath).message) && files == old(files)
      ensures Affirmative(answer) && readFault.None? && filePath in old(files) &&
              ReplaceFirst(old(files)[filePath], searchText, replaceWith) == old(files)[filePath] ==>
                out == NotFoundWarning(searchText, filePath) && files == old(files)
      ensures Affirmative(answer) && readFault.None? && filePath in old(files) &&
              ReplaceFirst(old(files)[filePath], searchText, replaceWith) != old(files)[filePath] ==>
                if writeFault.Some? then
                  out == EditError(filePath, writeFault.value.message) && files == old(files)
                else
                  out == EditDone(filePath) &&
                  files == old(files)[filePath := ReplaceFirst(old(files)[filePath], searchText, replaceWith)]
    {
      if !Affirmative(answer) {
        return EditCancelled(answer);
      }
      var read := ReadFile(filePath, readFault);
      if read.Err? {
        return EditError(filePath, read.fault.message);
      }
      var content := read.value;
      var originalContent := content;
      content := ReplaceFirst(content, searchText, replaceWith);
      if content == originalContent {
        return NotFoundWarning(searchText, filePath);
      }
      var failure := WriteFileAt(filePath, content, writeFault);
      if failure.Some? {
        return EditError(filePath, failure.value.message);
      }
      out := EditDone(filePath);
    }
  }

  /** On any disk, a file written through write_file reads back through read_file with the same content. */
  method WriteThenRead(disk: Disk, filePath: Path, content: string) returns (written: string, read: string)
    requires disk.Valid()
    modifies disk
    ensures disk.Valid()
    ensures written == WriteDone(filePath)
    ensures read == content
  {
    written := disk.WriteFile(filePath, content, "y", None, None);
    read := disk.ReadFileTool(filePath, "Y", None);
  }

  /** Writing "foo bar foo" and editing foo into baz leaves "baz bar foo" on disk. */
  method EditFirstOccurrence(filePath: Path) returns (edited: string, read: string)
    ensures edited == EditDone(filePath)
    ensures read == "baz bar foo"
  {
    var disk := new Disk();
    var _ := disk.WriteFile(filePath, "foo bar foo", "y", None, None);
    FirstOccurrenceExample();
    edited := disk.EditFile(filePath, "foo", "baz", "y", None, None);
    read := disk.ReadFileTool(filePath, "y", None);
  }

  /**
   * On any disk, declining each of the five tools, whatever their arguments
   * and whatever faults the system calls would report, changes no file and
   * no directory.
   */
  method DeclinedToolsChangeNothing(disk: Disk, answer: string,
                                    listPath: Path, readPath: Path, writePath: Path, content: string,
                                    dirPath: Path, editPath: Path, searchText: string, replaceWith: string,
                                    fault1: Option<Fault>, fault2: Option<Fault>)
    returns (listed: Output, read: string, written: string, created: string, edited: string)
    requires disk.Valid()
    requires answer != "y" && answer != "Y"
    modifies disk
    ensures disk.files == old(disk.files) && disk.dirs == old(disk.dirs)
    ensures listed == Text(ListCancelled) && read == ReadCancelled && written == WriteCancelled
    ensures created == CreateCancelled && edited == EditCancelled(answer)
  {
    AffirmativeIff(answer);
    listed := disk.ListDirectory(listPath, answer, fault1);
    read := disk.ReadFileTool(readPath, answer, fault1);
    written := disk.WriteFile(writePath, content, answer, fault1, fault2);
    created := disk.CreateDirectory(dirPath, answer, fault1);
    edited := disk.EditFile(editPath, searchText, replaceWith, answer, fault1, fault2);
  }

  /** On any disk, recursive creation succeeds twice in a row on the same path, with the same result. */
  method CreateTwice(disk: Disk, dirPath: Path) returns (first: string, second: string, listed: Output)
    requires disk.Valid()
    modifies disk
    ensures disk.Valid()
    ensures first == second == CreateDone(dirPath)
    ensures |dirPath| > 0 ==>
              listed.Listing? && DirEntry(dirPath[|dirPath| - 1], true) in listed.entries
  {
    first := disk.CreateDirectory(dirPath, "y", None);
    second := disk.CreateDirectory(dirPath, "y", None);
    assert Parent(dirPath) in Ancestors(dirPath);
    listed := disk.ListDirectory(Parent(dirPath), "y", None);
    if |dirPath| > 0 {
      assert dirPath == Parent(dirPath) + [dirPath[|dirPath| - 1]];
      disk.ChildrenExact(Parent(dirPath), dirPath[|dirPath| - 1]);
    }
  }
}
