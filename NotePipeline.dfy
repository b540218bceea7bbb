/**
 * The note-list pipeline of `ZkNotes.retrieveNotes`: records decoded from
 * `zk list -f json` are filtered on their title and each survivor is expanded
 * into one note for its title followed by one note per alias.
 * File URIs are modelled by their path and dates by integer timestamps.
 */
module NotePipeline {
  import opened JsString

  /** The `metadata.aliases` field of a record, by its run-time shape. */
  datatype Aliases =
    | AliasList(items: seq<string>)  // an array: used element by element
    | AliasString(text: string)      // a string: comma-separated
    | AliasOther                     // absent, null or any other value

  /** One record of `zk list` output. */
  datatype NoteDatum = NoteDatum(title: string, absPath: string, aliases: Aliases, modified: int, body: string)

  /** A note as held by the extension: a title or an alias of one file. */
  datatype ZkNote = ZkNote(title: string, uri: string, modified: int, body: string)

  /** `n` carries the file, timestamp and body of record `d`. */
  predicate SharesRecord(n: ZkNote, d: NoteDatum) {
    n.uri == d.absPath && n.modified == d.modified && n.body == d.body
  }

  /** Each piece trimmed, in order. */
  function TrimPieces(pieces: seq<string>): (titles: seq<string>)
    ensures |titles| == |pieces|
    ensures forall i :: 0 <= i < |pieces| ==> titles[i] == Trim(pieces[i])
  {
    seq(|pieces|, i requires 0 <= i < |pieces| => Trim(pieces[i]))
  }

  /** The alias titles a record contributes, in order. */
  function AliasTitles(a: Aliases): seq<string> {
    match a
    case AliasList(items) => items
    case AliasString(text) => TrimPieces(Split(text, ','))
    case AliasOther => []
  }

  /**
   * A comma-joined alias string gives one alias per comma-separated piece,
   * in order, each trimmed and free of commas; any other non-list value gives none.
   */
  lemma AliasStringTitles(text: string)
    ensures var titles := AliasTitles(AliasString(text));
      && |titles| == multiset(text)[','] + 1
      && (forall i :: 0 <= i < |titles| ==> Trimmed(titles[i]) && ',' !in titles[i])
      && (forall i :: 0 <= i < |titles| ==> Strips(Split(text, ',')[i], titles[i], |Split(text, ',')[i]| - |TrimStart(Split(text, ',')[i])|))
  {
    var pieces := Split(text, ',');
    var titles := TrimPieces(pieces);
    SplitPieces(text, ',');
    forall i | 0 <= i < |titles| ensures ',' !in titles[i] {
      StripsOmits(pieces[i], titles[i], |pieces[i]| - |TrimStart(pieces[i])|, ',');
    }
  }

  /** A strip of `s` holds no character that `s` does not. */
  lemma StripsOmits(s: string, r: string, lead: nat, c: char)
    requires Strips(s, r, lead) && c !in s
    ensures c !in r
  {
    forall k | 0 <= k < |r| ensures r[k] != c {
      assert r[k] == s[lead + k];
    }
  }

  /** A note for `title` that shares the rest of record `d`. */
  function NoteFor(d: NoteDatum, title: string): ZkNote {
    ZkNote(title, d.absPath, d.modified, d.body)
  }

  /** A title note for `d` followed by one note per alias title, in order. */
  function ExpandTitles(d: NoteDatum, aliases: seq<string>): (notes: seq<ZkNote>)
    ensures |notes| == 1 + |aliases|
    ensures notes[0].title == d.title
    ensures forall i :: 0 <= i < |aliases| ==> notes[i + 1].title == aliases[i]
    ensures forall i :: 0 <= i < |notes| ==> SharesRecord(notes[i], d)
  {
    [NoteFor(d, d.title)] + seq(|aliases|, i requires 0 <= i < |aliases| => NoteFor(d, aliases[i]))
  }

  /** The notes one record expands to: its title first, then its aliases. */
  function ExpandRecord(d: NoteDatum): seq<ZkNote> {
    ExpandTitles(d, AliasTitles(d.aliases))
  }

  /** The records whose title is not empty, in their original order. */
  function KeepTitled(ds: seq<NoteDatum>): (kept: seq<NoteDatum>)
    ensures |kept| <= |ds|
    ensures forall d :: d in kept <==> d in ds && d.title != ""
  {
    if ds == [] then []
    else if ds[0].title == "" then KeepTitled(ds[1..])
    else [ds[0]] + KeepTitled(ds[1..])
  }

  /** The concatenation of the expansions of `ds`, as `flatMap`. */
  function ExpandAll(ds: seq<NoteDatum>): seq<ZkNote> {
    if ds == [] then [] else ExpandRecord(ds[0]) + ExpandAll(ds[1..])
  }

  /** The unsorted note list built from decoded `zk list` output. */
  function ExpandNotes(ds: seq<NoteDatum>): seq<ZkNote> {
    ExpandAll(KeepTitled(ds))
  }

  /** How many notes the surviving records of `ds` give: one each plus one per alias. */
  function NoteCount(ds: seq<NoteDatum>): nat {
    if ds == [] then 0
    else (if ds[0].title == "" then 0 else 1 + |AliasTitles(ds[0].aliases)|) + NoteCount(ds[1..])
  }

  /** `n` is the title note or an alias note of record `d`, and `d` has a title. */
  predicate DerivedFrom(n: ZkNote, d: NoteDatum) {
    && d.title != ""
    && SharesRecord(n, d)
    && (n.title == d.title || n.title in AliasTitles(d.aliases))
  }

  lemma {:induction false} ExpandAllAppend(a: seq<NoteDatum>, b: seq<NoteDatum>)
    ensures ExpandAll(a + b) == ExpandAll(a) + ExpandAll(b)
  {
    if a != [] {
      assert (a + b)[1..] == a[1..] + b;
      ExpandAllAppend(a[1..], b);
    } else {
      assert a + b == b;
    }
  }

  lemma {:induction false} KeepTitledAppend(a: seq<NoteDatum>, b: seq<NoteDatum>)
    ensures KeepTitled(a + b) == KeepTitled(a) + KeepTitled(b)
  {
    if a != [] {
      assert (a + b)[1..] == a[1..] + b;
      KeepTitledAppend(a[1..], b);
    } else {
      assert a + b == b;
    }
  }

  /** The filter on one record keeps it exactly when its title is not empty. */
  lemma KeepTitledSingle(d: NoteDatum)
    ensures KeepTitled([d]) == if d.title == "" then [] else [d]
  {
    assert [d][1..] == [];
  }

  /** The pipeline maps a concatenation of record lists to the concatenation of their note lists. */
  lemma ExpandNotesAppend(a: seq<NoteDatum>, b: seq<NoteDatum>)
    ensures ExpandNotes(a + b) == ExpandNotes(a) + ExpandNotes(b)
  {
    KeepTitledAppend(a, b);
    ExpandAllAppend(KeepTitled(a), KeepTitled(b));
  }

  /** A single record gives its expansion if it has a title and nothing otherwise. */
  lemma ExpandNotesSingle(d: NoteDatum)
    ensures ExpandNotes([d]) == if d.title == "" then [] else ExpandRecord(d)
  {
    assert [d][1..] == [];
    if d.title != "" {
      assert KeepTitled([d]) == [d];
      assert ExpandAll([d]) == ExpandRecord(d) + ExpandAll([]);
    }
  }

  /** A record with an empty title contributes nothing: removing it leaves the output unchanged. */
  lemma DropsEmptyTitle(a: seq<NoteDatum>, d: NoteDatum, b: seq<NoteDatum>)
    requires d.title == ""
    ensures ExpandNotes(a + [d] + b) == ExpandNotes(a + b)
  {
    var ka, kb := KeepTitled(a), KeepTitled(b);
    KeepTitledSingle(d);
    KeepTitledAppend(a, [d]);
    assert KeepTitled(a + [d]) == ka + [] == ka;
    KeepTitledAppend(a + [d], b);
    KeepTitledAppend(a, b);
  }

  /** A record with a title contributes exactly its own expansion, in place. */
  lemma KeepsTitledRecord(a: seq<NoteDatum>, d: NoteDatum, b: seq<NoteDatum>)
    requires d.title != ""
    ensures ExpandNotes(a + [d] + b) == ExpandNotes(a) + ExpandRecord(d) + ExpandNotes(b)
  {
    ExpandNotesSingle(d);
    calc {
      ExpandNotes(a + [d] + b);
      { ExpandNotesAppend(a + [d], b); }
      ExpandNotes(a + [d]) + ExpandNotes(b);
      { ExpandNotesAppend(a, [d]); }
      ExpandNotes(a) + ExpandRecord(d) + ExpandNotes(b);
    }
  }

  /** The output has one note per surviving record plus one per alias of it. */
  lemma {:induction false} ExpandNotesLength(ds: seq<NoteDatum>)
    ensures |ExpandNotes(ds)| == NoteCount(ds)
  {
    if ds != [] {
      var d, rest := ds[0], ds[1..];
      assert ExpandNotes(ds) == ExpandNotes([d]) + ExpandNotes(rest) by {
        assert ds == [d] + rest;
        ExpandNotesAppend([d], rest);
      }
      ExpandNotesSingle(d);
      ExpandNotesLength(rest);
    }
  }

  /** Each note of a record's own expansion is derived from that record. */
  lemma ExpandRecordDerived(d: NoteDatum, k: nat)
    requires d.title != "" && k < |ExpandRecord(d)|
    ensures DerivedFrom(ExpandRecord(d)[k], d)
  {
    if k > 0 {
      assert ExpandRecord(d)[k].title == AliasTitles(d.aliases)[k - 1];
    }
  }

  /** Every output note is the title note or an alias note of some record of `ds` that has a title. */
  lemma {:induction false} ExpandNotesProvenance(ds: seq<NoteDatum>, k: nat)
    requires k < |ExpandNotes(ds)|
    ensures exists i :: 0 <= i < |ds| && DerivedFrom(ExpandNotes(ds)[k], ds[i])
  {
    var d, rest := ds[0], ds[1..];
    assert ExpandNotes(ds) == ExpandNotes([d]) + ExpandNotes(rest) by {
      assert ds == [d] + rest;
      ExpandNotesAppend([d], rest);
    }
    ExpandNotesSingle(d);
    var own := ExpandNotes([d]);
    if k < |own| {
      ExpandRecordDerived(d, k);
      assert ExpandNotes(ds)[k] == own[k];
    } else {
      ExpandNotesProvenance(rest, k - |own|);
      var i :| 0 <= i < |rest| && DerivedFrom(ExpandNotes(rest)[k - |own|], rest[i]);
      assert DerivedFrom(ExpandNotes(ds)[k], ds[i + 1]);
    }
  }

  /** An alias list is used as given: one note per element, in list order, untrimmed. */
  lemma AliasListUntrimmed(d: NoteDatum)
    requires d.aliases.AliasList?
    ensures |ExpandRecord(d)| == 1 + |d.aliases.items|
    ensures forall i :: 0 <= i < |d.aliases.items| ==>
      ExpandRecord(d)[i + 1] == ZkNote(d.aliases.items[i], d.absPath, d.modified, d.body)
  {
  }

  /** An alias value that is neither a list nor a string adds nothing: only the title note. */
  lemma AliasOtherTitleOnly(d: NoteDatum)
    requires d.aliases.AliasOther?
    ensures ExpandRecord(d) == [ZkNote(d.title, d.absPath, d.modified, d.body)]
  {
  }

  /** A piece that is already trimmed, with whitespace in front of it, trims to itself. */
  lemma TrimAfterSpace(y: string)
    requires Trimmed(y)
    ensures Trim(" " + y) == y
  {
    var s := " " + y;
    assert s[1..1 + |y|] == y;
    TrimUnique(s, y, 1);
  }

  lemma JoinTwo(x: string, y: string)
    ensures Join([x, y], ',') == x + [','] + y
  {
    assert [x, y][1..] == [y];
  }

  lemma SplitTwo(x: string, y: string)
    requires ',' !in x && ',' !in y
    ensures Split(x + [','] + y, ',') == [x, y]
  {
    JoinTwo(x, y);
    SplitJoin([x, y], ',');
  }

  lemma SplitThree(x: string, y: string, z: string)
    requires ',' !in x && ',' !in y && ',' !in z
    ensures Split(x + [','] + y + [','] + z, ',') == [x, y, z]
  {
    JoinTwo(y, z);
    assert [x, y, z][1..] == [y, z];
    assert x + [','] + y + [','] + z == x + [','] + (y + [','] + z);
    SplitJoin([x, y, z], ',');
  }

  lemma SeqTwo(a: seq<string>, x: string, y: string)
    requires |a| == 2 && a[0] == x && a[1] == y
    ensures a == [x, y]
  {
  }

  lemma SeqThree(a: seq<string>, x: string, y: string, z: string)
    requires |a| == 3 && a[0] == x && a[1] == y && a[2] == z
    ensures a == [x, y, z]
  {
  }

  lemma AliasTitlesTwo(text: string, p: string, q: string, x: string, y: string)
    requires Split(text, ',') == [p, q]
    requires Trim(p) == x && Trim(q) == y
    ensures AliasTitles(AliasString(text)) == [x, y]
  {
    var pieces := [p, q];
    assert pieces[0] == p && pieces[1] == q;
    SeqTwo(TrimPieces(pieces), x, y);
  }

  lemma AliasTitlesThree(text: string, p: string, q: string, r: string, x: string, y: string, z: string)
    requires Split(text, ',') == [p, q, r]
    requires Trim(p) == x && Trim(q) == y && Trim(r) == z
    ensures AliasTitles(AliasString(text)) == [x, y, z]
  {
    var pieces := [p, q, r];
    assert pieces[0] == p && pieces[1] == q && pieces[2] == r;
    SeqThree(TrimPieces(pieces), x, y, z);
  }

  /**
   * A comma-joined alias string becomes its trimmed pieces:
   * `x + ", " + y` gives `x` and `y`, so `"bar, baz"` gives `"bar"` and `"baz"`.
   */
  lemma AliasStringTwo(x: string, y: string)
    requires Trimmed(x) && Trimmed(y) && ',' !in x && ',' !in y
    ensures AliasTitles(AliasString(x + ", " + y)) == [x, y]
  {
    assert x + ", " + y == x + [','] + (" " + y);
    SplitTwo(x, " " + y);
    TrimOfTrimmed(x);
    TrimAfterSpace(y);
    AliasTitlesTwo(x + ", " + y, x, " " + y, x, y);
  }

  /**
   * Only the record title is filtered: an empty piece of an alias string
   * (`"a,,b"`) still gives an alias, with empty title.
   */
  lemma EmptyAliasPieceKept(x: string, y: string)
    requires Trimmed(x) && Trimmed(y) && ',' !in x && ',' !in y
    ensures AliasTitles(AliasString(x + ",," + y)) == [x, "", y]
  {
    assert x + ",," + y == x + [','] + "" + [','] + y;
    SplitThree(x, "", y);
    TrimOfTrimmed(x);
    TrimOfTrimmed("");
    TrimOfTrimmed(y);
    AliasTitlesThree(x + ",," + y, x, "", y, x, "", y);
  }

  /**
   * A titled record whose alias string is `x + ", " + y` gives three notes on
   * its file: the title, then `x`, then `y` (the `"Foo"` / `"bar, baz"` scenario).
   */
  lemma TitleThenTwoAliases(d: NoteDatum, x: string, y: string)
    requires d.title != "" && d.aliases == AliasString(x + ", " + y)
    requires Trimmed(x) && Trimmed(y) && ',' !in x && ',' !in y
    ensures ExpandNotes([d]) == [ZkNote(d.title, d.absPath, d.modified, d.body),
                                 ZkNote(x, d.absPath, d.modified, d.body),
                                 ZkNote(y, d.absPath, d.modified, d.body)]
  {
    AliasStringTwo(x, y);
    ExpandNotesSingle(d);
  }
}
