/**
 * `ZkNote` projections and the `ZkNotes` store of src/ZkNotes.ts: retrieving
 * the note list (with its error path), the held `notes` list, its projections
 * into tree items and quick-pick items, and the random pick.
 * Running `zk list` and `JSON.parse` are parameters: `run` is the outcome of
 * the child process, `parse` stands for `JSON.parse` of its standard output.
 */
module ZkNotes {
  import opened Wrappers
  import opened NotePipeline
  import opened NoteOrder

  // ---------------------------------------------------------------- projections

  /** The `vscode.open` command attached to a tree item. */
  datatype OpenCommand = OpenCommand(command: string, title: string, arguments: seq<string>)

  datatype TreeItem = TreeItem(labelText: string, resourceUri: string, command: OpenCommand)

  datatype QuickPickItemKind = Separator | Default

  datatype QuickPickItem = QuickPickItem(
    labelText: string, kind: QuickPickItemKind, description: string, detail: string,
    picked: bool, alwaysShow: bool, uri: string)

  /** The sidebar entry of a note: labelled by its title, opening its file. */
  function ToTreeItem(n: ZkNote): (item: TreeItem)
    ensures item.labelText == n.title && item.resourceUri == n.uri
    ensures item.command.command == "vscode.open" && item.command.arguments == [n.uri]
    ensures item.command.title == n.title + " is opened"
  {
    TreeItem(n.title, n.uri, OpenCommand("vscode.open", n.title + " is opened", [n.uri]))
  }

  /**
   * The picker entry of a note; `relativePath` stands for the editor's
   * `workspace.asRelativePath`.
   */
  function ToQuickPickItem(n: ZkNote, relativePath: string -> string): (item: QuickPickItem)
    ensures item.labelText == n.title && item.uri == n.uri && item.detail == n.body
    ensures item.description == relativePath(n.uri)
    ensures item.kind == Default && !item.picked && !item.alwaysShow
  {
    QuickPickItem(n.title, Default, relativePath(n.uri), n.body, false, false, n.uri)
  }

  // ---------------------------------------------------------------- errors

  datatype ErrorKind = ProcessError | ParseError

  /** A thrown value; `message` is `None` when it is not an `Error` instance. */
  datatype Thrown = Thrown(kind: ErrorKind, message: Option<string>)

  const ErrorPrefix: string := "Error executing command"

  /** The text shown to the user for a thrown value. */
  function ErrorText(e: Thrown): (text: string)
    ensures |ErrorPrefix| <= |text| && text[..|ErrorPrefix|] == ErrorPrefix
    ensures e.message.None? <==> text == ErrorPrefix
  {
    match e.message
    case Some(m) => ErrorPrefix + ": " + m
    case None => ErrorPrefix
  }

  /** The shown text determines the error message: nothing of it is lost. */
  lemma ErrorTextInjective(e1: Thrown, e2: Thrown)
    requires ErrorText(e1) == ErrorText(e2)
    ensures e1.message == e2.message
  {
    if e1.message.Some? && e2.message.Some? {
      var n := |ErrorPrefix + ": "|;
      assert ErrorText(e1)[n..] == e1.message.value;
      assert ErrorText(e2)[n..] == e2.message.value;
    }
  }

  // ---------------------------------------------------------------- retrieval

  /**
   * `ZkNotes.retrieveNotes`: on success the notes of the surviving records,
   * newest first; on any failure the same error, re-raised after its text is
   * shown, and no list at all.
   */
  method RetrieveNotes(run: Result<string, Thrown>, parse: string -> Result<seq<NoteDatum>, Thrown>)
    returns (result: Result<seq<ZkNote>, Thrown>, shown: Option<string>)
    ensures run.Failure? ==> result == Failure(run.error) && shown == Some(ErrorText(run.error))
    ensures run.Success? && parse(run.value).Failure? ==>
      result == Failure(parse(run.value).error) && shown == Some(ErrorText(parse(run.value).error))
    ensures run.Success? && parse(run.value).Success? ==>
      && shown == None
      && result.Success?
      && result.value == SortDesc(ExpandNotes(parse(run.value).value))
      && SortedDesc(result.value)
      && multiset(result.value) == multiset(ExpandNotes(parse(run.value).value))
  {
    var records: seq<NoteDatum>;
    match run {
      case Failure(e) =>
        return Failure(e), Some(ErrorText(e));
      case Success(stdout) =>
        match parse(stdout) {
          case Failure(e) =>
            return Failure(e), Some(ErrorText(e));
          case Success(decoded) =>
            records := decoded;
        }
    }
    var expanded := ExpandNotes(records);
    var notes := new ZkNote[|expanded|](k requires 0 <= k < |expanded| => expanded[k]);
    assert notes[..] == expanded;
    SortByModified(notes);
    SortDescSorted(expanded);
    SortDescPermutes(expanded);
    result, shown := Success(notes[..]), None;
  }

  // ---------------------------------------------------------------- the store

  /** The static `ZkNotes.rootPath`: one cell shared by every `ZkNotes` object. */
  class RootPathSetting {
    var path: Option<string>

    constructor()
      ensures path == None
    {
      path := None;
    }

    /**
     * The lazy lookup at the start of `retrieveNotes`: when no root is set yet,
     * take the first workspace folder, if there is one.
     */
    method Resolve(workspaceFolders: seq<string>)
      modifies this
      ensures old(path).Some? ==> path == old(path)
      ensures old(path).None? && |workspaceFolders| > 0 ==> path == Some(workspaceFolders[0])
      ensures old(path).None? && |workspaceFolders| == 0 ==> path == None
    {
      if path.None? {
        path := if |workspaceFolders| > 0 then Some(workspaceFolders[0]) else None;
      }
    }
  }

  /** A constructor option: `withRootPath(p)` or the option `withNotes()` resolves to. */
  datatype ZkNotesOption = WithRootPath(root: string) | WithNotes(notes: seq<ZkNote>)

  /** The held list after applying `options` in order, starting from `initial`. */
  function NotesAfter(options: seq<ZkNotesOption>, initial: seq<ZkNote>): seq<ZkNote> {
    if options == [] then initial
    else match options[|options| - 1]
      case WithNotes(ns) => ns
      case WithRootPath(_) => NotesAfter(options[..|options| - 1], initial)
  }

  /** The root path after applying `options` in order, starting from `initial`. */
  function RootAfter(options: seq<ZkNotesOption>, initial: Option<string>): Option<string> {
    if options == [] then initial
    else match options[|options| - 1]
      case WithRootPath(p) => Some(p)
      case WithNotes(_) => RootAfter(options[..|options| - 1], initial)
  }

  /** The last `withNotes` option decides the list; without one it stays as it was. */
  lemma {:induction false} NotesAfterLast(options: seq<ZkNotesOption>, initial: seq<ZkNote>, k: nat)
    requires k < |options| && options[k].WithNotes?
    requires forall j :: k < j < |options| ==> options[j].WithRootPath?
    ensures NotesAfter(options, initial) == options[k].notes
    decreases |options|
  {
    if k < |options| - 1 {
      var init := options[..|options| - 1];
      assert forall j :: k < j < |init| ==> init[j] == options[j];
      NotesAfterLast(init, initial, k);
    }
  }

  /** Without a `withNotes` option the held list stays as it was. */
  lemma {:induction false} NotesAfterNone(options: seq<ZkNotesOption>, initial: seq<ZkNote>)
    requires forall j :: 0 <= j < |options| ==> options[j].WithRootPath?
    ensures NotesAfter(options, initial) == initial
  {
    if options != [] {
      var init := options[..|options| - 1];
      assert forall j :: 0 <= j < |init| ==> init[j] == options[j];
      NotesAfterNone(init, initial);
    }
  }

  /** The last `withRootPath` option decides the root path. */
  lemma {:induction false} RootAfterLast(options: seq<ZkNotesOption>, initial: Option<string>, k: nat)
    requires k < |options| && options[k].WithRootPath?
    requires forall j :: k < j < |options| ==> options[j].WithNotes?
    ensures RootAfter(options, initial) == Some(options[k].root)
    decreases |options|
  {
    if k < |options| - 1 {
      var init := options[..|options| - 1];
      assert forall j :: k < j < |init| ==> init[j] == options[j];
      RootAfterLast(init, initial, k);
    }
  }

  /** Without a `withRootPath` option the root path stays as it was. */
  lemma {:induction false} RootAfterNone(options: seq<ZkNotesOption>, initial: Option<string>)
    requires forall j :: 0 <= j < |options| ==> options[j].WithNotes?
    ensures RootAfter(options, initial) == initial
  {
    if options != [] {
      var init := options[..|options| - 1];
      assert forall j :: 0 <= j < |init| ==> init[j] == options[j];
      RootAfterNone(init, initial);
    }
  }

  /** `withNotes()`: retrieves the notes; the option exists only if retrieval succeeded. */
  method WithNotesOption(run: Result<string, Thrown>, parse: string -> Result<seq<NoteDatum>, Thrown>)
    returns (option: Result<ZkNotesOption, Thrown>, shown: Option<string>)
    ensures run.Failure? ==> option == Failure(run.error) && shown == Some(ErrorText(run.error))
    ensures run.Success? && parse(run.value).Failure? ==>
      option == Failure(parse(run.value).error) && shown == Some(ErrorText(parse(run.value).error))
    ensures run.Success? && parse(run.value).Success? ==>
      option == Success(WithNotes(SortDesc(ExpandNotes(parse(run.value).value)))) && shown == None
  {
    var result;
    result, shown := RetrieveNotes(run, parse);
    option := match result
      case Success(notes) => Success(WithNotes(notes))
      case Failure(e) => Failure(e);
  }

  /** The store: the current note list, newest first. */
  class ZkNotes {
    var notes: seq<ZkNote>

    /** Starts from an empty list and applies each option in turn. */
    constructor(root: RootPathSetting, options: seq<ZkNotesOption>)
      modifies root
      ensures notes == NotesAfter(options, [])
      ensures root.path == RootAfter(options, old(root.path))
    {
      notes := [];
      new;
      var i := 0;
      while i < |options|
        invariant 0 <= i <= |options|
        invariant notes == NotesAfter(options[..i], [])
        invariant root.path == RootAfter(options[..i], old(root.path))
      {
        assert options[..i + 1][..i] == options[..i];
        match options[i] {
          case WithRootPath(p) => root.path := Some(p);
          case WithNotes(ns) => notes := ns;
        }
        i := i + 1;
      }
      assert options[..|options|] == options;
    }

    /**
     * `ZkListProvider.refresh`: replaces the list with a freshly retrieved one,
     * or, when retrieval fails, leaves it exactly as it was.
     */
    method Refresh(run: Result<string, Thrown>, parse: string -> Result<seq<NoteDatum>, Thrown>)
      returns (result: Result<seq<ZkNote>, Thrown>, shown: Option<string>)
      modifies this
      ensures run.Failure? ==>
        result == Failure(run.error) && shown == Some(ErrorText(run.error)) && notes == old(notes)
      ensures run.Success? && parse(run.value).Failure? ==>
        && result == Failure(parse(run.value).error)
        && shown == Some(ErrorText(parse(run.value).error))
        && notes == old(notes)
      ensures run.Success? && parse(run.value).Success? ==>
        && notes == SortDesc(ExpandNotes(parse(run.value).value))
        && result == Success(notes) && shown == None
    {
      result, shown := RetrieveNotes(run, parse);
      if result.Success? {
        notes := result.value;
      }
    }

    /** One tree item per note, in list order. */
    function ToTreeItems(): (items: seq<TreeItem>)
      reads this
      ensures |items| == |notes|
      ensures forall i :: 0 <= i < |items| ==> items[i].labelText == notes[i].title && items[i].resourceUri == notes[i].uri
    {
      seq(|notes|, i requires 0 <= i < |notes| reads this => ToTreeItem(notes[i]))
    }

    /** One quick-pick item per note, in list order. */
    function ToQuickPickItems(relativePath: string -> string): (items: seq<QuickPickItem>)
      reads this
      ensures |items| == |notes|
      ensures forall i :: 0 <= i < |items| ==>
        items[i].labelText == notes[i].title && items[i].uri == notes[i].uri && items[i].detail == notes[i].body
    {
      seq(|notes|, i requires 0 <= i < |notes| reads this => ToQuickPickItem(notes[i], relativePath))
    }

    /**
     * `randomNote`: the note at `floor(draw * |notes|)` for a draw in [0, 1);
     * `None` (JavaScript's `undefined`) when the list is empty.
     */
    function RandomNote(draw: real): (picked: Option<ZkNote>)
      requires 0.0 <= draw < 1.0
      reads this
      ensures |notes| == 0 <==> picked.None?
      ensures picked.Some? ==> picked.value in notes
      ensures |notes| == 1 ==> picked == Some(notes[0])
    {
      var i := PickIndex(draw, |notes|);
      if i < |notes| then Some(notes[i]) else None
    }
  }

  /** `Math.floor(draw * n)`: an index below `n` whenever `n > 0`. */
  function PickIndex(draw: real, n: nat): (i: nat)
    requires 0.0 <= draw < 1.0
    ensures n > 0 ==> i < n
    ensures n == 0 ==> i == 0
  {
    var f := (draw * n as real).Floor;
    assert 0.0 <= draw * n as real;
    f
  }

  /** Every index can be drawn: the draw `i / n` selects index `i`. */
  lemma PickIndexReaches(n: nat, i: nat)
    requires i < n
    ensures 0.0 <= i as real / n as real < 1.0
    ensures PickIndex(i as real / n as real, n) == i
  {
    var d := i as real / n as real;
    assert d * n as real == i as real;
  }
}
