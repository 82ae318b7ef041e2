/**
 * The CodeMirror <-> Yorkie synchronisation bridge (frontend/src/utils/yorkie/y-sync.ts).
 *
 * The editor (CodeMirror) and the shared document (Yorkie) are abstract
 * collaborators: both hold their text as a `string`; a CodeMirror change and a
 * Yorkie `Text.edit` are both splices; the conversion of an index range into a
 * CRDT position range is a function the document carries but the bridge does
 * not look into. The bridge itself is `SyncPlugin`: its constructor subscribes
 * to "$.content", `Observe` is the remote-to-local observer, `Update` the
 * local-to-remote path and `Destroy` the teardown.
 */
module YSync {
  import opened Wrappers
  import opened Strings

  /** The path the bridge subscribes to. */
  const ContentPath: string := "$.content"

  /** The document event type the observer reacts to. */
  const RemoteChange: string := "remote-change"

  /** The text operation kind the observer translates. */
  const EditKind: string := "edit"

  // ---------------------------------------------------------------------------
  // Splicing: the common meaning of a CodeMirror change and a Yorkie Text.edit

  predicate InRange(text: string, from: int, to: int) {
    0 <= from <= to <= |text|
  }

  /** `text` with `[from, to)` replaced by `insert`. */
  function Splice(text: string, from: int, to: int, insert: string): (r: string)
    requires InRange(text, from, to)
    ensures |r| == |text| - (to - from) + |insert|
    ensures r[..from] == text[..from]
    ensures r[from..from + |insert|] == insert
    ensures r[from + |insert|..] == text[to..]
  {
    text[..from] + insert + text[to..]
  }

  // ---------------------------------------------------------------------------
  // The shared document (Yorkie)

  datatype IndexRange = IndexRange(from: nat, to: nat)

  /** A CRDT text position: the node it lies in and the offset inside that node. */
  datatype TextPos = TextPos(nodeId: nat, relativeOffset: nat)

  /** `TextPosStructRange`: what the presence record holds as the selection. */
  datatype PosRange = PosRange(start: TextPos, end: TextPos)

  /** One `content.edit(from, to, text)` call issued by the bridge. */
  datatype EditCall = EditCall(from: int, to: int, text: string)

  /**
   * `Text.edit(from, to, insert)`: inside the text it splices and answers the
   * caret range just after the inserted text; outside it changes nothing and
   * answers no range.
   */
  function TextEdit(text: string, from: int, to: int, insert: string): (r: (string, Option<IndexRange>))
    ensures r.1.Some? <==> InRange(text, from, to)
    ensures r.1.Some? ==> InRange(text, from, to) && r.0 == Splice(text, from, to, insert)
    ensures r.1.Some? ==> r.1.value.from == r.1.value.to == from + |insert| <= |r.0|
    ensures r.1.None? ==> r.0 == text
  {
    if InRange(text, from, to) then
      (Splice(text, from, to, insert), Some(IndexRange(from + |insert|, from + |insert|)))
    else
      (text, None)
  }

  /** The client a configuration belongs to. */
  datatype Client = Client(key: string)

  /**
   * A Yorkie document with a `content` text (absent until created) and the
   * local presence's `selection`. `localChanges` holds one entry per
   * `doc.update` call: the text edits made inside it, in order.
   */
  class Document {
    var content: Option<string>
    var selection: Option<PosRange>
    var localChanges: seq<seq<EditCall>>
    var subscriptions: map<nat, string>
    var nextHandle: nat
    /** `indexRangeToPosRange` of the content text, left uninterpreted. */
    const toPosRange: (string, IndexRange) -> PosRange

    ghost predicate Valid()
      reads this
    {
      forall h :: h in subscriptions ==> h < nextHandle
    }

    constructor (toPosRange: (string, IndexRange) -> PosRange, selection: Option<PosRange>)
      ensures Valid()
      ensures content == None && this.selection == selection && localChanges == []
      ensures subscriptions == map[] && this.toPosRange == toPosRange
    {
      this.toPosRange := toPosRange;
      content := None;
      this.selection := selection;
      localChanges := [];
      subscriptions := map[];
      nextHandle := 0;
    }

    /** `doc.subscribe(path, observer)`: the answer is the handle its disposer removes. */
    method Subscribe(path: string) returns (handle: nat)
      requires Valid()
      modifies this`subscriptions, this`nextHandle
      ensures Valid()
      ensures handle !in old(subscriptions)
      ensures subscriptions == old(subscriptions)[handle := path]
    {
      handle := nextHandle;
      subscriptions := subscriptions[handle := path];
      nextHandle := nextHandle + 1;
    }

    /** The disposer returned by `subscribe`; calling it again does nothing. */
    method Unsubscribe(handle: nat)
      requires Valid()
      modifies this`subscriptions
      ensures Valid()
      ensures subscriptions == old(subscriptions) - {handle}
    {
      subscriptions := subscriptions - {handle};
    }

    /** `root.content = new yorkie.Text()`. */
    method CreateText()
      modifies this`content
      ensures content == Some("")
    {
      content := Some("");
    }

    /** `root.content.edit(from, to, insert)`. */
    method Edit(from: int, to: int, insert: string) returns (range: Option<IndexRange>)
      requires content.Some?
      modifies this`content
      ensures content.Some? && (content.value, range) == TextEdit(old(content.value), from, to, insert)
    {
      var r := TextEdit(content.value, from, to, insert);
      content := Some(r.0);
      range := r.1;
    }

    /** `presence.set({ selection })`. */
    method SetSelection(sel: PosRange)
      modifies this`selection
      ensures selection == Some(sel)
    {
      selection := Some(sel);
    }

    /** The end of one `doc.update` call: its edits become one local change. */
    method Commit(edits: seq<EditCall>)
      modifies this`localChanges
      ensures localChanges == old(localChanges) + [edits]
    {
      localChanges := localChanges + [edits];
    }
  }

  /** `YSyncConfig`: compared by identity, it is also the origin annotation's value. */
  class SyncConfig {
    const doc: Document
    const client: Client

    constructor (doc: Document, client: Client)
      ensures this.doc == doc && this.client == client
    {
      this.doc := doc;
      this.client := client;
    }
  }

  /** `ySyncFacet.combine`: the config supplied last, if any was supplied. */
  function Combine(inputs: seq<SyncConfig>): (r: Option<SyncConfig>)
    ensures r.Some? <==> |inputs| > 0
    ensures r.Some? ==> r.value in inputs
  {
    if |inputs| == 0 then None else Some(inputs[|inputs| - 1])
  }

  /** Later providers override earlier ones: only the last input decides. */
  lemma CombineLastWins(earlier: seq<SyncConfig>, later: seq<SyncConfig>, last: SyncConfig)
    ensures Combine(earlier + later + [last]) == Some(last)
    ensures |later| > 0 ==> Combine(earlier + later) == Combine(later)
  {
  }

  // ---------------------------------------------------------------------------
  // The editor (CodeMirror)

  /** A change spec `{ from, to, insert }`. */
  datatype Change = Change(from: nat, to: nat, insert: string)

  /**
   * A dispatched transaction: its change and the value of its
   * `yorkieSyncAnnotation`, if it carries one.
   */
  datatype Transaction = Transaction(change: Change, annotation: Option<SyncConfig>)

  /**
   * One range of a `ChangeSet` as `iterChanges` reports it: `[fromA, toA)` in
   * the start document, `[fromB, toB)` in the new one, and the inserted text
   * as CodeMirror's lines.
   */
  datatype ChangedRange = ChangedRange(fromA: nat, toA: nat, fromB: nat, toB: nat, inserted: seq<string>)

  /** What a plugin's `update` receives. */
  datatype ViewUpdate = ViewUpdate(
    docChanged: bool,
    transactions: seq<Transaction>,
    changes: seq<ChangedRange>,
    startDoc: string,
    newDoc: string)

  /**
   * A change set well-formed for `startDoc` -> `newDoc`, read from cursor `a`
   * in the start document and `b` in the new one: the ranges come in order,
   * the unchanged stretches between them agree, and each range's new text is
   * its inserted lines joined by '\n'.
   */
  ghost predicate ChangesFrom(startDoc: string, newDoc: string, changes: seq<ChangedRange>, a: nat, b: nat)
    decreases |changes|
  {
    if changes == [] then
      a <= |startDoc| && b <= |newDoc| && startDoc[a..] == newDoc[b..]
    else
      var c := changes[0];
      && a <= c.fromA <= c.toA <= |startDoc|
      && b <= c.fromB <= c.toB <= |newDoc|
      && startDoc[a..c.fromA] == newDoc[b..c.fromB]
      && newDoc[c.fromB..c.toB] == Join(c.inserted, '\n')
      && ChangesFrom(startDoc, newDoc, changes[1..], c.toA, c.toB)
  }

  class EditorView {
    var text: string
    var transactions: seq<Transaction>

    constructor (text: string)
      ensures this.text == text && transactions == []
    {
      this.text := text;
      transactions := [];
    }

    /**
     * `view.dispatch({ changes: [change], annotations })`: applies the change,
     * or throws a RangeError (here: answers false, changes nothing) when the
     * range is not inside the document.
     */
    method Dispatch(tr: Transaction) returns (ok: bool)
      modifies this
      ensures ok <==> InRange(old(text), tr.change.from, tr.change.to)
      ensures ok ==> text == Splice(old(text), tr.change.from, tr.change.to, tr.change.insert)
      ensures ok ==> transactions == old(transactions) + [tr]
      ensures !ok ==> text == old(text) && transactions == old(transactions)
    {
      ok := InRange(text, tr.change.from, tr.change.to);
      if ok {
        text := Splice(text, tr.change.from, tr.change.to, tr.change.insert);
        transactions := transactions + [tr];
      }
    }
  }

  /** The `ViewUpdate` CodeMirror hands its plugins after dispatching `tr` on `before`. */
  function DispatchUpdate(tr: Transaction, before: string, after: string): ViewUpdate
  {
    var c := tr.change;
    var changed := !(c.from == c.to && c.insert == "");
    ViewUpdate(
      changed,
      [tr],
      if changed then [ChangedRange(c.from, c.to, c.from, c.from + |c.insert|, Split(c.insert, '\n'))] else [],
      before,
      after)
  }

  /** The update CodeMirror reports for a dispatched single change is well-formed. */
  lemma DispatchUpdateWellFormed(tr: Transaction, before: string)
    requires InRange(before, tr.change.from, tr.change.to)
    ensures var after := Splice(before, tr.change.from, tr.change.to, tr.change.insert);
      ChangesFrom(before, after, DispatchUpdate(tr, before, after).changes, 0, 0)
  {
    var c := tr.change;
    var after := Splice(before, c.from, c.to, c.insert);
    JoinSplit(c.insert, '\n');
    assert before[c.to..] == after[c.from + |c.insert|..];
  }

  // ---------------------------------------------------------------------------
  // Remote to local: the observer

  datatype EditValue = EditValue(content: string)

  /** A text operation of a remote change: `{ type, from, to, value }`. */
  datatype Operation = Operation(kind: string, from: int, to: int, value: Option<EditValue>)

  /** A document event: its type and, for a remote change, its operations. */
  datatype DocEvent = DocEvent(kind: string, operations: seq<Operation>)

  /** What aborts the observer: `op.value!` on a missing value, or a RangeError from dispatch. */
  datatype ObserveError = MissingEditValue | InvalidChangeRange

  function Max0(x: int): nat {
    if x < 0 then 0 else x
  }

  /** The editor change for an edit operation: its range clamped at 0, its text inserted. */
  function ClampedChange(op: Operation): (c: Change)
    requires op.value.Some?
    ensures op.from < 0 ==> c.from == 0
    ensures op.from >= 0 ==> c.from == op.from
    ensures op.to < 0 ==> c.to == 0
    ensures op.to >= 0 ==> c.to == op.to
    ensures c.insert == op.value.value.content
  {
    Change(Max0(op.from), Max0(op.to), op.value.value.content)
  }

  /** The edit operations of `ops`, in order. */
  function EditOps(ops: seq<Operation>): (edits: seq<Operation>)
    ensures |edits| <= |ops|
    ensures forall op :: op in edits <==> op in ops && op.kind == EditKind
  {
    if ops == [] then []
    else if ops[0].kind == EditKind then [ops[0]] + EditOps(ops[1..])
    else EditOps(ops[1..])
  }

  /** The filter distributes over concatenation: it keeps order and multiplicity. */
  lemma {:induction false} EditOpsAppend(a: seq<Operation>, b: seq<Operation>)
    ensures EditOps(a + b) == EditOps(a) + EditOps(b)
    decreases |a|
  {
    if a != [] {
      assert (a + b)[0] == a[0];
      assert (a + b)[1..] == a[1..] + b;
      EditOpsAppend(a[1..], b);
      if a[0].kind == EditKind {
        assert EditOps(a + b) == [a[0]] + EditOps(a[1..] + b);
        AppendAssoc([a[0]], EditOps(a[1..]), EditOps(b));
      } else {
        assert EditOps(a + b) == EditOps(a[1..] + b);
      }
    } else {
      assert a + b == b;
    }
  }

  /** A single operation is kept exactly when it is an edit. */
  lemma EditOpsSingle(op: Operation)
    ensures EditOps([op]) == if op.kind == EditKind then [op] else []
  {
    assert [op][1..] == [];
  }

  /** The editor text, the transactions dispatched and the abort, if any, of one observer run. */
  datatype Replayed = Replayed(text: string, dispatched: seq<Transaction>, failure: Option<ObserveError>)

  /** What the observer does with the operations of a remote change, starting from editor text `text`. */
  function RemoteReplay(text: string, ops: seq<Operation>, conf: SyncConfig): (r: Replayed)
    ensures |r.dispatched| <= |ops|
    ensures forall i :: 0 <= i < |r.dispatched| ==> r.dispatched[i].annotation == Some(conf)
    decreases |ops|
  {
    if ops == [] then Replayed(text, [], None)
    else if ops[0].kind != EditKind then RemoteReplay(text, ops[1..], conf)
    else if ops[0].value.None? then Replayed(text, [], Some(MissingEditValue))
    else
      var c := ClampedChange(ops[0]);
      if !InRange(text, c.from, c.to) then Replayed(text, [], Some(InvalidChangeRange))
      else
        var rest := RemoteReplay(Splice(text, c.from, c.to, c.insert), ops[1..], conf);
        Replayed(rest.text, [Transaction(c, Some(conf))] + rest.dispatched, rest.failure)
  }

  lemma AppendAssoc<T>(a: seq<T>, b: seq<T>, c: seq<T>)
    ensures (a + b) + c == a + (b + c)
  {
  }

  /**
   * The observer's loop step: if replaying `ops` from `text0` is `sent` followed
   * by replaying `ops[i..]` from `text`, then it is `sent` and the dispatches of
   * `ops[i]` alone followed by the replay of `ops[i + 1..]`, or ends with
   * `ops[i]` when that aborts.
   */
  lemma RemoteReplayAdvance(text0: string, ops: seq<Operation>, i: nat, conf: SyncConfig, sent: seq<Transaction>, text: string)
    requires i < |ops|
    requires var rest := RemoteReplay(text, ops[i..], conf);
      RemoteReplay(text0, ops, conf) == Replayed(rest.text, sent + rest.dispatched, rest.failure)
    ensures var h := RemoteReplay(text, [ops[i]], conf);
      && (h.failure.Some? ==> RemoteReplay(text0, ops, conf) == Replayed(h.text, sent + h.dispatched, h.failure))
      && (h.failure.None? ==>
            var rest := RemoteReplay(h.text, ops[i + 1..], conf);
            RemoteReplay(text0, ops, conf) == Replayed(rest.text, (sent + h.dispatched) + rest.dispatched, rest.failure))
  {
    var op := ops[i];
    assert ops[i..][1..] == ops[i + 1..];
    assert [op][1..] == [];
    var h := RemoteReplay(text, [op], conf);
    var rest := RemoteReplay(h.text, ops[i + 1..], conf);
    if op.kind != EditKind {
      assert RemoteReplay(text, [], conf) == Replayed(text, [], None);
      assert h == RemoteReplay(text, [], conf);
      assert RemoteReplay(text, ops[i..], conf) == rest;
      assert sent + h.dispatched == sent;
    } else if op.value.Some? && InRange(text, ClampedChange(op).from, ClampedChange(op).to) {
      var c := ClampedChange(op);
      var after := Splice(text, c.from, c.to, c.insert);
      assert RemoteReplay(after, [], conf) == Replayed(after, [], None);
      assert h == Replayed(after, [Transaction(c, Some(conf))], None);
      assert RemoteReplay(text, ops[i..], conf) == Replayed(rest.text, h.dispatched + rest.dispatched, rest.failure);
      AppendAssoc(sent, h.dispatched, rest.dispatched);
    }
  }

  /** Operations other than edits are ignored. */
  lemma {:induction false} RemoteReplayIgnoresNonEdits(text: string, ops: seq<Operation>, conf: SyncConfig)
    ensures RemoteReplay(text, ops, conf) == RemoteReplay(text, EditOps(ops), conf)
    decreases |ops|
  {
    if ops != [] {
      if ops[0].kind != EditKind {
        RemoteReplayIgnoresNonEdits(text, ops[1..], conf);
      } else if ops[0].value.Some? {
        var c := ClampedChange(ops[0]);
        if InRange(text, c.from, c.to) {
          RemoteReplayIgnoresNonEdits(Splice(text, c.from, c.to, c.insert), ops[1..], conf);
          assert ([ops[0]] + EditOps(ops[1..]))[1..] == EditOps(ops[1..]);
        }
      }
    }
  }

  /**
   * One transaction per edit operation, in emission order, each the clamped
   * change tagged with the bridge's config; all of them unless the run aborts.
   */
  lemma {:induction false} RemoteReplayDispatchesEachEdit(text: string, ops: seq<Operation>, conf: SyncConfig)
    ensures var r := RemoteReplay(text, ops, conf); var edits := EditOps(ops);
      && |r.dispatched| <= |edits|
      && (r.failure.None? ==> |r.dispatched| == |edits|)
      && forall i :: 0 <= i < |r.dispatched| ==>
           edits[i].value.Some? && r.dispatched[i] == Transaction(ClampedChange(edits[i]), Some(conf))
    decreases |ops|
  {
    if ops != [] {
      if ops[0].kind != EditKind {
        RemoteReplayDispatchesEachEdit(text, ops[1..], conf);
      } else if ops[0].value.Some? {
        var c := ClampedChange(ops[0]);
        if InRange(text, c.from, c.to) {
          var rest := RemoteReplay(Splice(text, c.from, c.to, c.insert), ops[1..], conf);
          RemoteReplayDispatchesEachEdit(Splice(text, c.from, c.to, c.insert), ops[1..], conf);
          DispatchedPrefix(ops[0], EditOps(ops[1..]), rest.dispatched, conf);
          assert EditOps(ops) == [ops[0]] + EditOps(ops[1..]);
          assert RemoteReplay(text, ops, conf).dispatched == [Transaction(c, Some(conf))] + rest.dispatched;
        }
      }
    }
  }

  /** The step of `RemoteReplayDispatchesEachEdit`: one more edit in front of both sequences. */
  lemma DispatchedPrefix(op: Operation, edits: seq<Operation>, dispatched: seq<Transaction>, conf: SyncConfig)
    requires op.value.Some? && |dispatched| <= |edits|
    requires forall i :: 0 <= i < |dispatched| ==>
      edits[i].value.Some? && dispatched[i] == Transaction(ClampedChange(edits[i]), Some(conf))
    ensures var e := [op] + edits; var d := [Transaction(ClampedChange(op), Some(conf))] + dispatched;
      forall i :: 0 <= i < |d| ==> e[i].value.Some? && d[i] == Transaction(ClampedChange(e[i]), Some(conf))
  {
    var e := [op] + edits;
    var d := [Transaction(ClampedChange(op), Some(conf))] + dispatched;
    forall i | 1 <= i < |d|
      ensures e[i].value.Some? && d[i] == Transaction(ClampedChange(e[i]), Some(conf))
    {
      assert e[i] == edits[i - 1] && d[i] == dispatched[i - 1];
    }
  }

  /** Every transaction the observer dispatches is recognised by `update` as its own echo. */
  lemma RemoteReplayEchoFree(text: string, ops: seq<Operation>, conf: SyncConfig, before: string, after: string)
    ensures forall tr :: tr in RemoteReplay(text, ops, conf).dispatched ==>
      Suppressed(conf, DispatchUpdate(tr, before, after))
  {
    RemoteReplayDispatchesEachEdit(text, ops, conf);
  }

  /** Two inserts at 0 and at 1 on an empty editor give "AB", as two transactions in order. */
  lemma RemoteReplayInOrder(conf: SyncConfig)
    ensures var a := Operation(EditKind, 0, 0, Some(EditValue("A")));
      var b := Operation(EditKind, 1, 1, Some(EditValue("B")));
      RemoteReplay("", [a, b], conf)
        == Replayed("AB", [Transaction(Change(0, 0, "A"), Some(conf)), Transaction(Change(1, 1, "B"), Some(conf))], None)
  {
    var a := Operation(EditKind, 0, 0, Some(EditValue("A")));
    var b := Operation(EditKind, 1, 1, Some(EditValue("B")));
    assert [a, b][1..] == [b];
    assert ClampedChange(a) == Change(0, 0, "A");
    assert ClampedChange(b) == Change(1, 1, "B");
    assert Splice("", 0, 0, "A") == "A";
    assert Splice("A", 1, 1, "B") == "AB";
    assert RemoteReplay("AB", [], conf) == Replayed("AB", [], None);
    assert RemoteReplay("A", [b], conf) == Replayed("AB", [Transaction(Change(1, 1, "B"), Some(conf))], None);
  }

  // ---------------------------------------------------------------------------
  // Local to remote: update

  /** `update` returns at once: nothing changed, or the first transaction carries this config. */
  predicate Suppressed(conf: SyncConfig, u: ViewUpdate)
    ensures !u.docChanged ==> Suppressed(conf, u)
    ensures u.transactions == [] ==> (Suppressed(conf, u) <==> !u.docChanged)
  {
    !u.docChanged || (|u.transactions| > 0 && u.transactions[0].annotation == Some(conf))
  }

  /** Only the first transaction of an update is looked at. */
  lemma SuppressedReadsFirstTransaction(conf: SyncConfig, u: ViewUpdate, others: seq<Transaction>)
    requires |u.transactions| > 0
    ensures Suppressed(conf, u) == Suppressed(conf, u.(transactions := [u.transactions[0]] + others))
  {
  }

  /**
   * Which coordinates a changed range is replayed in: `StartDoc` is
   * `edit(fromA, toA, ...)` as the source writes it; `Shifted` moves the range
   * by what the earlier ranges of the same update changed.
   */
  datatype Coordinates = StartDoc | Shifted

  function EditFrom(coords: Coordinates, c: ChangedRange): int {
    match coords
    case StartDoc => c.fromA
    case Shifted => c.fromB
  }

  function EditTo(coords: Coordinates, c: ChangedRange): int {
    match coords
    case StartDoc => c.toA
    case Shifted => c.fromB + (c.toA - c.fromA)
  }

  function EditCallOf(coords: Coordinates, c: ChangedRange): EditCall {
    EditCall(EditFrom(coords, c), EditTo(coords, c), Join(c.inserted, '\n'))
  }

  /** The shared content, the presence selection and the edits issued by one `doc.update`. */
  datatype Synced = Synced(content: Option<string>, selection: Option<PosRange>, edits: seq<EditCall>)

  /** The content and the selection after one changed range has been replayed. */
  datatype Step = Step(text: string, selection: Option<PosRange>)

  /**
   * One pass of the `iterChanges` callback: the content (an empty text when
   * absent) is edited, and the selection moves to the caret when the edit
   * answers a range.
   */
  function ReplayStep(
    coords: Coordinates,
    content: Option<string>,
    selection: Option<PosRange>,
    c: ChangedRange,
    toPos: (string, IndexRange) -> PosRange): Step
  {
    var call := EditCallOf(coords, c);
    var r := TextEdit(content.GetOr(""), call.from, call.to, call.text);
    Step(r.0, if r.1.Some? then Some(toPos(r.0, r.1.value)) else selection)
  }

  /** What the body of `doc.update` in `update` does to the content and the selection. */
  function LocalReplay(
    coords: Coordinates,
    content: Option<string>,
    selection: Option<PosRange>,
    changes: seq<ChangedRange>,
    toPos: (string, IndexRange) -> PosRange): (s: Synced)
    ensures |s.edits| == |changes|
    ensures s.content.Some? <==> content.Some? || changes != []
    decreases |changes|
  {
    if changes == [] then Synced(content, selection, [])
    else
      var step := ReplayStep(coords, content, selection, changes[0], toPos);
      var rest := LocalReplay(coords, Some(step.text), step.selection, changes[1..], toPos);
      Synced(rest.content, rest.selection, [EditCallOf(coords, changes[0])] + rest.edits)
  }

  /** One edit per changed range, in iteration order. */
  lemma {:induction false} LocalReplayEditsInOrder(
    coords: Coordinates, content: Option<string>, selection: Option<PosRange>,
    changes: seq<ChangedRange>, toPos: (string, IndexRange) -> PosRange)
    ensures var r := LocalReplay(coords, content, selection, changes, toPos);
      |r.edits| == |changes| && forall i :: 0 <= i < |changes| ==> r.edits[i] == EditCallOf(coords, changes[i])
    decreases |changes|
  {
    if changes != [] {
      var step := ReplayStep(coords, content, selection, changes[0], toPos);
      LocalReplayEditsInOrder(coords, Some(step.text), step.selection, changes[1..], toPos);
      var r := LocalReplay(coords, content, selection, changes, toPos);
      forall i | 0 <= i < |changes|
        ensures r.edits[i] == EditCallOf(coords, changes[i])
      {
        if i > 0 {
          assert changes[1..][i - 1] == changes[i];
        }
      }
    }
  }

  /**
   * The content text is created empty when absent, and only then: afterwards
   * it exists exactly when it existed before or some range was replayed.
   */
  lemma LocalReplayCreatesContentLazily(
    coords: Coordinates, selection: Option<PosRange>,
    changes: seq<ChangedRange>, toPos: (string, IndexRange) -> PosRange)
    ensures changes != [] ==>
      LocalReplay(coords, None, selection, changes, toPos) == LocalReplay(coords, Some(""), selection, changes, toPos)
    ensures LocalReplay(coords, None, selection, changes, toPos).content.Some? <==> changes != []
  {
    if changes != [] {
      var step := ReplayStep(coords, None, selection, changes[0], toPos);
      LocalReplayKeepsContent(coords, step.text, step.selection, changes[1..], toPos);
    }
  }

  /** Once present, the content is never removed. */
  lemma {:induction false} LocalReplayKeepsContent(
    coords: Coordinates, text: string, selection: Option<PosRange>,
    changes: seq<ChangedRange>, toPos: (string, IndexRange) -> PosRange)
    ensures LocalReplay(coords, Some(text), selection, changes, toPos).content.Some?
    decreases |changes|
  {
    if changes != [] {
      var step := ReplayStep(coords, Some(text), selection, changes[0], toPos);
      LocalReplayKeepsContent(coords, step.text, step.selection, changes[1..], toPos);
    }
  }

  /** `calls` applied one after another with `Text.edit`, starting from `text`. */
  function ApplyEdits(text: string, calls: seq<EditCall>): string
    decreases |calls|
  {
    if calls == [] then text
    else ApplyEdits(TextEdit(text, calls[0].from, calls[0].to, calls[0].text).0, calls[1..])
  }

  /**
   * The presence selection after `calls` are applied to `text`, starting from
   * `selection`: each edit that answers a range moves it to that range.
   */
  function Selected(
    text: string, calls: seq<EditCall>, selection: Option<PosRange>,
    toPos: (string, IndexRange) -> PosRange): Option<PosRange>
    decreases |calls|
  {
    if calls == [] then selection
    else
      var r := TextEdit(text, calls[0].from, calls[0].to, calls[0].text);
      Selected(r.0, calls[1..], if r.1.Some? then Some(toPos(r.0, r.1.value)) else selection, toPos)
  }

  /**
   * Appending one call: it edits the text the earlier calls produced, and the
   * selection is its caret when it answers a range, otherwise the selection
   * the earlier calls left. So the selection is that of the last call that
   * answered a range.
   */
  lemma {:induction false} ApplyEditsSnoc(
    text: string, calls: seq<EditCall>, c: EditCall, selection: Option<PosRange>,
    toPos: (string, IndexRange) -> PosRange)
    ensures var before := ApplyEdits(text, calls);
      var r := TextEdit(before, c.from, c.to, c.text);
      && ApplyEdits(text, calls + [c]) == r.0
      && Selected(text, calls + [c], selection, toPos)
           == (if r.1.Some? then Some(toPos(r.0, r.1.value)) else Selected(text, calls, selection, toPos))
    decreases |calls|
  {
    if calls == [] {
      assert [] + [c] == [c];
      assert [c][1..] == [];
    } else {
      var r := TextEdit(text, calls[0].from, calls[0].to, calls[0].text);
      var sel := if r.1.Some? then Some(toPos(r.0, r.1.value)) else selection;
      ApplyEditsSnoc(r.0, calls[1..], c, sel, toPos);
      assert (calls + [c])[1..] == calls[1..] + [c];
    }
  }

  /** Calls that all fall outside the text change neither the text nor the selection. */
  lemma {:induction false} EditsOutsideChangeNothing(
    text: string, calls: seq<EditCall>, selection: Option<PosRange>,
    toPos: (string, IndexRange) -> PosRange)
    requires forall i :: 0 <= i < |calls| ==> !InRange(text, calls[i].from, calls[i].to)
    ensures ApplyEdits(text, calls) == text
    ensures Selected(text, calls, selection, toPos) == selection
    decreases |calls|
  {
    if calls != [] {
      assert forall i :: 0 <= i < |calls[1..]| ==> calls[1..][i] == calls[i + 1];
      EditsOutsideChangeNothing(text, calls[1..], selection, toPos);
    }
  }

  /**
   * In either coordinate choice, the replay edits one text throughout: the
   * content afterwards is the recorded edits applied in order to the content
   * before (a new empty text when it was absent), never a recreated one, and
   * the selection is the one those edits leave.
   */
  lemma {:induction false} LocalReplayAppliesEdits(
    coords: Coordinates, content: Option<string>, selection: Option<PosRange>,
    changes: seq<ChangedRange>, toPos: (string, IndexRange) -> PosRange)
    requires content.Some? || changes != []
    ensures var r := LocalReplay(coords, content, selection, changes, toPos);
      && r.content == Some(ApplyEdits(content.GetOr(""), r.edits))
      && r.selection == Selected(content.GetOr(""), r.edits, selection, toPos)
    decreases |changes|
  {
    if changes != [] {
      var step := ReplayStep(coords, content, selection, changes[0], toPos);
      var rest := LocalReplay(coords, Some(step.text), step.selection, changes[1..], toPos);
      LocalReplayAppliesEdits(coords, Some(step.text), step.selection, changes[1..], toPos);
      var call := EditCallOf(coords, changes[0]);
      assert ([call] + rest.edits)[1..] == rest.edits;
    }
  }

  /**
   * One range replayed in shifted coordinates on "new text up to `b`, start
   * text from `a`" gives "new text up to the range's end, start text from its
   * end", and answers the caret at the range's end.
   */
  lemma ShiftedStepAdvances(
    startDoc: string, newDoc: string, c: ChangedRange, a: nat, b: nat,
    selection: Option<PosRange>, toPos: (string, IndexRange) -> PosRange)
    requires a <= c.fromA <= c.toA <= |startDoc|
    requires b <= c.fromB <= c.toB <= |newDoc|
    requires startDoc[a..c.fromA] == newDoc[b..c.fromB]
    requires newDoc[c.fromB..c.toB] == Join(c.inserted, '\n')
    ensures var next := newDoc[..c.toB] + startDoc[c.toA..];
      ReplayStep(Shifted, Some(newDoc[..b] + startDoc[a..]), selection, c, toPos)
        == Step(next, Some(toPos(next, IndexRange(c.toB, c.toB))))
  {
    var cur := newDoc[..b] + startDoc[a..];
    var ins := Join(c.inserted, '\n');
    var from := c.fromB;
    var to := c.fromB + (c.toA - c.fromA);
    assert |startDoc[a..c.fromA]| == |newDoc[b..c.fromB]|;
    assert InRange(cur, from, to);
    assert cur[..from] == newDoc[..c.fromB] by {
      assert cur[..from] == newDoc[..b] + startDoc[a..][..c.fromA - a];
      assert startDoc[a..][..c.fromA - a] == startDoc[a..c.fromA];
      assert newDoc[..c.fromB] == newDoc[..b] + newDoc[b..c.fromB];
    }
    assert cur[to..] == startDoc[c.toA..] by {
      assert cur[to..] == startDoc[a..][c.toA - a..];
    }
    var next := newDoc[..c.toB] + startDoc[c.toA..];
    assert Splice(cur, from, to, ins) == next by {
      assert newDoc[..c.toB] == newDoc[..c.fromB] + newDoc[c.fromB..c.toB];
    }
    assert EditCallOf(Shifted, c) == EditCall(from, to, ins);
    assert TextEdit(cur, from, to, ins) == (next, Some(IndexRange(c.toB, c.toB)));
  }

  /**
   * Replaying in shifted coordinates, from a content that holds the new text
   * up to `b` followed by the start text from `a`, reaches the new text; the
   * selection ends as the caret after the last inserted text.
   */
  lemma {:induction false} ShiftedReplayReachesNewDoc(
    startDoc: string, newDoc: string, changes: seq<ChangedRange>, a: nat, b: nat,
    selection: Option<PosRange>, toPos: (string, IndexRange) -> PosRange)
    requires ChangesFrom(startDoc, newDoc, changes, a, b)
    requires a <= |startDoc| && b <= |newDoc|
    ensures var r := LocalReplay(Shifted, Some(newDoc[..b] + startDoc[a..]), selection, changes, toPos);
      && r.content == Some(newDoc)
      && (changes == [] ==> r.selection == selection)
      && (changes != [] ==> var last := changes[|changes| - 1];
            last.toB <= |newDoc| && r.selection == Some(toPos(newDoc, IndexRange(last.toB, last.toB))))
    decreases |changes|
  {
    if changes == [] {
      assert newDoc[..b] + newDoc[b..] == newDoc;
    } else {
      var c := changes[0];
      var cur := newDoc[..b] + startDoc[a..];
      ShiftedStepAdvances(startDoc, newDoc, c, a, b, selection, toPos);
      var next := newDoc[..c.toB] + startDoc[c.toA..];
      var step := ReplayStep(Shifted, Some(cur), selection, c, toPos);
      assert ChangesFrom(startDoc, newDoc, changes[1..], c.toA, c.toB);
      var rest := LocalReplay(Shifted, Some(next), step.selection, changes[1..], toPos);
      assert LocalReplay(Shifted, Some(cur), selection, changes, toPos).content == rest.content;
      assert LocalReplay(Shifted, Some(cur), selection, changes, toPos).selection == rest.selection;
      ShiftedReplayReachesNewDoc(startDoc, newDoc, changes[1..], c.toA, c.toB, step.selection, toPos);
      if |changes| == 1 {
        assert next == newDoc by {
          assert newDoc[..c.toB] + newDoc[c.toB..] == newDoc;
        }
      } else {
        assert changes[1..][|changes[1..]| - 1] == changes[|changes| - 1];
      }
    }
  }

  /**
   * The corrected `update` keeps the shared text equal to the editor's: if the
   * content held the start document, it holds the new one afterwards, and the
   * presence selection is the caret after the last inserted text.
   */
  lemma UpdateKeepsSharedTextInSync(
    u: ViewUpdate, content: Option<string>, selection: Option<PosRange>, toPos: (string, IndexRange) -> PosRange)
    requires ChangesFrom(u.startDoc, u.newDoc, u.changes, 0, 0)
    requires content.GetOr("") == u.startDoc
    ensures var r := LocalReplay(Shifted, content, selection, u.changes, toPos);
      && r.content.GetOr("") == u.newDoc
      && (u.changes != [] ==> var last := u.changes[|u.changes| - 1];
            r.content == Some(u.newDoc) && last.toB <= |u.newDoc|
            && r.selection == Some(toPos(u.newDoc, IndexRange(last.toB, last.toB))))
  {
    var cur := u.newDoc[..0] + u.startDoc[0..];
    assert cur == u.startDoc;
    if u.changes == [] {
      assert u.startDoc[0..] == u.newDoc[0..];
    } else {
      ShiftedReplayReachesNewDoc(u.startDoc, u.newDoc, u.changes, 0, 0, selection, toPos);
      if content.None? {
        LocalReplayCreatesContentLazily(Shifted, selection, u.changes, toPos);
      }
      assert LocalReplay(Shifted, content, selection, u.changes, toPos)
          == LocalReplay(Shifted, Some(cur), selection, u.changes, toPos);
    }
  }

  /**
   * For a single changed range both coordinate choices agree, which is the
   * ordinary typing case.
   */
  lemma SingleRangeCoordinatesAgree(
    u: ViewUpdate, content: Option<string>, selection: Option<PosRange>, toPos: (string, IndexRange) -> PosRange)
    requires |u.changes| == 1
    requires ChangesFrom(u.startDoc, u.newDoc, u.changes, 0, 0)
    ensures LocalReplay(StartDoc, content, selection, u.changes, toPos)
         == LocalReplay(Shifted, content, selection, u.changes, toPos)
  {
    var c := u.changes[0];
    assert |u.startDoc[0..c.fromA]| == |u.newDoc[0..c.fromB]|;
  }

  /**
   * As written, `update` edits every range at its start-document position: a
   * cursor-per-end edit of "abcd" that inserts "X" at 0 and "Y" at 4 (giving
   * "XabcdY" in the editor) leaves "XabcYd" in the shared text.
   */
  lemma AsWrittenDesyncs(selection: Option<PosRange>, toPos: (string, IndexRange) -> PosRange)
    ensures var changes := [ChangedRange(0, 0, 0, 1, ["X"]), ChangedRange(4, 4, 5, 6, ["Y"])];
      && ChangesFrom("abcd", "XabcdY", changes, 0, 0)
      && LocalReplay(StartDoc, Some("abcd"), selection, changes, toPos).content == Some("XabcYd")
      && LocalReplay(Shifted, Some("abcd"), selection, changes, toPos).content == Some("XabcdY")
  {
    var changes := [ChangedRange(0, 0, 0, 1, ["X"]), ChangedRange(4, 4, 5, 6, ["Y"])];
    assert changes[1..] == [ChangedRange(4, 4, 5, 6, ["Y"])];
    assert Join(["X"], '\n') == "X";
    assert Join(["Y"], '\n') == "Y";
    assert "XabcdY"[0..1] == "X" && "XabcdY"[5..6] == "Y";
    assert "abcd"[0..0] == "XabcdY"[0..0];
    assert "abcd"[0..4] == "XabcdY"[1..5];
    assert "abcd"[4..] == "XabcdY"[6..];
    assert Splice("abcd", 0, 0, "X") == "Xabcd";
    assert Splice("Xabcd", 4, 4, "Y") == "XabcYd";
    assert Splice("Xabcd", 5, 5, "Y") == "XabcdY";
  }

  // ---------------------------------------------------------------------------
  // The bridge

  /** `YSyncPluginValue`. */
  class SyncPlugin {
    const view: EditorView
    const conf: SyncConfig
    /** `_doc`, the config's document. */
    const doc: Document
    /** `_unsubscribe`: the handle of the "$.content" subscription. */
    const unsubscribe: nat

    /** The subscription taken at construction is still live. */
    predicate Subscribed()
      reads doc
    {
      unsubscribe in doc.subscriptions
    }

    /**
     * Reads the config from the facet's inputs and subscribes once to
     * "$.content" on its document, keeping the disposer.
     */
    constructor (view: EditorView, configs: seq<SyncConfig>)
      requires |configs| > 0
      requires configs[|configs| - 1].doc.Valid()
      modifies configs[|configs| - 1].doc
      ensures this.view == view && Combine(configs) == Some(conf) && doc == conf.doc
      ensures doc.Valid() && Subscribed()
      ensures unsubscribe !in old(configs[|configs| - 1].doc.subscriptions)
      ensures doc.subscriptions == old(configs[|configs| - 1].doc.subscriptions)[unsubscribe := ContentPath]
      ensures doc.content == old(configs[|configs| - 1].doc.content)
      ensures doc.selection == old(configs[|configs| - 1].doc.selection)
      ensures doc.localChanges == old(configs[|configs| - 1].doc.localChanges)
    {
      this.view := view;
      var c := configs[|configs| - 1];
      this.conf := c;
      this.doc := c.doc;
      var handle := c.doc.Subscribe(ContentPath);
      this.unsubscribe := handle;
    }

    /**
     * The `forEach` callback of the observer for one operation: an edit is
     * dispatched as one tagged transaction and CodeMirror hands the resulting
     * update to `Update`, which leaves the document alone; anything else is
     * skipped.
     */
    method ApplyOperation(op: Operation) returns (failure: Option<ObserveError>)
      modifies view, doc
      ensures unchanged(doc)
      ensures var r := RemoteReplay(old(view.text), [op], conf);
        && view.text == r.text
        && view.transactions == old(view.transactions) + r.dispatched
        && failure == r.failure
    {
      assert [op][1..] == [];
      failure := None;
      if op.kind == EditKind {
        if op.value.None? {
          failure := Some(MissingEditValue);
          return;
        }
        var tr := Transaction(ClampedChange(op), Some(conf));
        var before := view.text;
        var ok := view.Dispatch(tr);
        if !ok {
          failure := Some(InvalidChangeRange);
          return;
        }
        var u := DispatchUpdate(tr, before, view.text);
        assert Suppressed(conf, u);
        Update(u);
      }
    }

    /**
     * The observer. A remote change is replayed on the editor, one tagged
     * transaction per edit operation; CodeMirror hands each resulting update
     * to this plugin's `Update`, which recognises it and leaves the document
     * alone. Any other event does nothing.
     */
    method Observe(event: DocEvent) returns (failure: Option<ObserveError>)
      modifies view, doc
      ensures unchanged(doc)
      ensures event.kind != RemoteChange ==> unchanged(view) && failure == None
      ensures event.kind == RemoteChange ==>
        var r := RemoteReplay(old(view.text), event.operations, conf);
        && view.text == r.text
        && view.transactions == old(view.transactions) + r.dispatched
        && failure == r.failure
    {
      failure := None;
      if event.kind == RemoteChange {
        var ops := event.operations;
        ghost var sent: seq<Transaction> := [];
        var i := 0;
        while i < |ops|
          invariant 0 <= i <= |ops|
          invariant unchanged(doc) && failure.None?
          invariant view.transactions == old(view.transactions) + sent
          invariant var rest := RemoteReplay(view.text, ops[i..], conf);
            RemoteReplay(old(view.text), ops, conf) == Replayed(rest.text, sent + rest.dispatched, rest.failure)
        {
          RemoteReplayAdvance(old(view.text), ops, i, conf, sent, view.text);
          ghost var step := RemoteReplay(view.text, [ops[i]], conf);
          AppendAssoc(old(view.transactions), sent, step.dispatched);
          failure := ApplyOperation(ops[i]);
          if failure.Some? {
            assert RemoteReplay(old(view.text), ops, conf) == Replayed(view.text, sent + step.dispatched, failure);
            return;
          }
          sent := sent + step.dispatched;
          i := i + 1;
        }
        assert RemoteReplay(view.text, ops[i..], conf) == Replayed(view.text, [], None) by {
          assert ops[i..] == [];
        }
        assert sent + [] == sent;
      }
    }

    /**
     * The local-to-remote path. An update that changed nothing, or whose first
     * transaction carries this config, leaves the document as it is. Otherwise
     * one `doc.update` replays every changed range, in order, on the content
     * (created empty first if absent) and moves the selection to the caret of
     * each successful edit.
     */
    method Update(u: ViewUpdate)
      modifies doc
      ensures Suppressed(conf, u) ==> unchanged(doc)
      ensures !Suppressed(conf, u) ==>
        var r := LocalReplay(Shifted, old(doc.content), old(doc.selection), u.changes, doc.toPosRange);
        && doc.content == r.content
        && doc.selection == r.selection
        && doc.localChanges == old(doc.localChanges) + [r.edits]
        && doc.subscriptions == old(doc.subscriptions)
        && doc.nextHandle == old(doc.nextHandle)
    {
      if !u.docChanged || (|u.transactions| > 0 && u.transactions[0].annotation == Some(conf)) {
        return;
      }
      ghost var full := LocalReplay(Shifted, doc.content, doc.selection, u.changes, doc.toPosRange);
      var edits: seq<EditCall> := [];
      var i := 0;
      while i < |u.changes|
        invariant 0 <= i <= |u.changes|
        invariant doc.localChanges == old(doc.localChanges)
        invariant doc.subscriptions == old(doc.subscriptions) && doc.nextHandle == old(doc.nextHandle)
        invariant var rest := LocalReplay(Shifted, doc.content, doc.selection, u.changes[i..], doc.toPosRange);
          full == Synced(rest.content, rest.selection, edits + rest.edits)
      {
        var c := u.changes[i];
        assert u.changes[i..][1..] == u.changes[i + 1..];
        ghost var step := ReplayStep(Shifted, doc.content, doc.selection, c, doc.toPosRange);
        ghost var later := LocalReplay(Shifted, Some(step.text), step.selection, u.changes[i + 1..], doc.toPosRange);
        assert full == Synced(later.content, later.selection, edits + ([EditCallOf(Shifted, c)] + later.edits));
        if doc.content.None? {
          doc.CreateText();
        }
        var insertText := Join(c.inserted, '\n');
        var from, to := c.fromB, c.fromB + (c.toA - c.fromA);
        var range := doc.Edit(from, to, insertText);
        if range.Some? {
          doc.SetSelection(doc.toPosRange(doc.content.value, range.value));
        }
        assert EditCallOf(Shifted, c) == EditCall(from, to, insertText);
        assert doc.content == Some(step.text) && doc.selection == step.selection;
        assert edits + ([EditCallOf(Shifted, c)] + later.edits) == (edits + [EditCall(from, to, insertText)]) + later.edits;
        edits := edits + [EditCall(from, to, insertText)];
        i := i + 1;
      }
      assert u.changes[i..] == [];
      assert full.edits == edits by {
        assert edits + [] == edits;
      }
      doc.Commit(edits);
    }

    /** Calls the disposer: the "$.content" subscription is gone, nothing else changes. */
    method Destroy()
      requires doc.Valid()
      modifies doc`subscriptions
      ensures doc.Valid() && !Subscribed()
      ensures doc.subscriptions == old(doc.subscriptions) - {unsubscribe}
      ensures doc.content == old(doc.content) && doc.selection == old(doc.selection)
      ensures doc.localChanges == old(doc.localChanges)
    {
      doc.Unsubscribe(unsubscribe);
    }
  }
}
