/**
 * Choice of the working directory for a notebook's kernel process
 * (getWorkingDirectoryForNotebook): a saved local notebook runs in its own
 * directory, an untitled one in the first local workspace folder, and
 * anything else in the caller's fallback.
 */
module Workspace {
  import opened Wrappers
  import opened Text

  const FileScheme: string := "file"
  const UntitledScheme: string := "untitled"

  /** The scheme and path of a resource identifier; other URI parts play no role here. */
  datatype Uri = Uri(scheme: string, path: string)

  /** As createUri: the scheme defaults to the local file scheme. */
  function CreateUri(path: string, scheme: string := FileScheme): (u: Uri)
    ensures u.path == path && u.scheme == scheme
  {
    Uri(scheme, path)
  }

  predicate IsLocal(u: Uri) {
    u.scheme == FileScheme
  }

  /**
   * The directory part of a '/'-separated path: everything before the last
   * separator, "/" when that separator is the leading one, "." when there is none.
   */
  function DirName(path: string): (r: string)
    ensures '/' !in path ==> r == "."
    ensures '/' in path && path[0] == '/' && '/' !in path[1..] ==> r == "/"
    ensures '/' in path && (path[0] != '/' || '/' in path[1..]) ==>
      0 < |r| < |path| && r == path[..|r|] && path[|r|] == '/' && '/' !in path[|r| + 1..]
  {
    match LastIndexOf(path, '/')
    case None => "."
    case Some(i) =>
      if i == 0 then "/" else path[..i]
  }

  /** The first local folder in the list, if any. */
  function FirstLocal(folders: seq<Uri>): (r: Option<nat>)
    ensures r.None? <==> forall i :: 0 <= i < |folders| ==> !IsLocal(folders[i])
    ensures r.Some? ==> r.value < |folders| && IsLocal(folders[r.value])
    ensures r.Some? ==> forall i :: 0 <= i < r.value ==> !IsLocal(folders[i])
  {
    if folders == [] then None
    else if IsLocal(folders[0]) then Some(0)
    else match FirstLocal(folders[1..])
      case None => None
      case Some(i) => Some(i + 1)
  }

  /** The result is always one of the three tiers' candidates. */
  function WorkingDirectoryForNotebook(notebook: Uri, workspaceFolders: seq<Uri>, fallback: string): (r: string)
    ensures r == fallback || (IsLocal(notebook) && r == DirName(notebook.path))
      || (notebook.scheme == UntitledScheme
          && exists i :: 0 <= i < |workspaceFolders| && IsLocal(workspaceFolders[i]) && r == workspaceFolders[i].path)
  {
    if notebook.scheme == FileScheme then
      DirName(notebook.path)
    else if notebook.scheme == UntitledScheme then
      match FirstLocal(workspaceFolders)
      case Some(i) => workspaceFolders[i].path
      case None => fallback
    else
      fallback
  }

  /** The directory of `dir/name` is `dir` whenever the name holds no separator. */
  lemma DirNameOfChild(dir: string, name: string)
    requires dir != [] && '/' !in name
    ensures DirName(dir + "/" + name) == dir
  {
    var p := dir + "/" + name;
    assert p[|dir|] == '/';
    assert forall j :: |dir| < j < |p| ==> p[j] == name[j - |dir| - 1];
    assert LastIndexOf(p, '/') == Some(|dir|);
    assert p[..|dir|] == dir;
  }

  /** Tier 1: a local notebook runs in its own directory; folders and fallback do not matter. */
  lemma LocalNotebookUsesItsDirectory(notebook: Uri, folders: seq<Uri>, fallback: string,
                                      folders': seq<Uri>, fallback': string)
    requires IsLocal(notebook)
    ensures WorkingDirectoryForNotebook(notebook, folders, fallback) == DirName(notebook.path)
    ensures WorkingDirectoryForNotebook(notebook, folders, fallback)
         == WorkingDirectoryForNotebook(notebook, folders', fallback')
  {
  }

  /** Tier 2: an untitled notebook runs in the first local folder, skipping remote ones before it. */
  lemma UntitledNotebookUsesFirstLocalFolder(notebook: Uri, folders: seq<Uri>, fallback: string, k: nat)
    requires notebook.scheme == UntitledScheme
    requires k < |folders| && IsLocal(folders[k])
    requires forall i :: 0 <= i < k ==> !IsLocal(folders[i])
    ensures WorkingDirectoryForNotebook(notebook, folders, fallback) == folders[k].path
  {
  }

  /** Tier 3: with no local folder an untitled notebook falls back. */
  lemma UntitledNotebookWithoutLocalFolderFallsBack(notebook: Uri, folders: seq<Uri>, fallback: string)
    requires notebook.scheme == UntitledScheme
    requires forall i :: 0 <= i < |folders| ==> !IsLocal(folders[i])
    ensures WorkingDirectoryForNotebook(notebook, folders, fallback) == fallback
  {
  }

  /** Tier 3: any other notebook (a remote one, say) falls back even when local folders exist. */
  lemma OtherNotebookUsesFallback(notebook: Uri, folders: seq<Uri>, fallback: string)
    requires notebook.scheme != FileScheme && notebook.scheme != UntitledScheme
    ensures WorkingDirectoryForNotebook(notebook, folders, fallback) == fallback
  {
  }

  lemma LocalNotebookExample()
    ensures WorkingDirectoryForNotebook(CreateUri("path/to/notebook.dib"),
      [CreateUri("not/used/1"), CreateUri("not/used/2")], "fallback-not-used") == "path/to"
  {
    ExampleNotebookPath("path/to", "notebook.dib", "path/to/notebook.dib");
  }

  // Literal values arrive through `requires` so the verifier does not unfold
  // the functions applied to them eagerly; the example lemmas call this one.
  lemma ExampleNotebookPath(dir: string, name: string, path: string)
    requires dir == "path/to" && name == "notebook.dib" && path == "path/to/notebook.dib"
    ensures DirName(path) == dir
  {
    DirNameOfChild(dir, name);
    assert dir + "/" + name == path;
  }

  lemma UntitledNotebookExample()
    ensures WorkingDirectoryForNotebook(CreateUri("path/to/notebook.dib", "untitled"),
      [CreateUri("not/used", "remote"), CreateUri("this/is/local/and/used")], "fallback-not-used")
      == "this/is/local/and/used"
  {
    UntitledNotebookUsesFirstLocalFolder(CreateUri("path/to/notebook.dib", "untitled"),
      [CreateUri("not/used", "remote"), CreateUri("this/is/local/and/used")], "fallback-not-used", 1);
  }

  lemma RemoteNotebookExample()
    ensures WorkingDirectoryForNotebook(CreateUri("path/to/notebook.dib", "remote"),
      [CreateUri("not/used/1"), CreateUri("not/used/2")], "fallback-is-used") == "fallback-is-used"
  {
  }
}
