/** Bounded undo and redo in the editor (frontend/src/historyState.ts), against a timeline that forgets nothing. */
module History {
  import opened Text

  datatype HistoryState<T> = HistoryState(value: Option<T>, past: seq<T>, future: seq<T>, saved: Option<T>)

  function Bound(limit: int): (n: nat)
    ensures n >= 1
  {
    if limit > 1 then limit else 1
  }

  /** The larger of one and the limit. */
  lemma BoundIsMaximum(limit: int)
    ensures Bound(limit) >= 1 && Bound(limit) >= limit && (Bound(limit) == 1 || Bound(limit) == limit)
  {
  }

  /** `entries.slice(-n)` for positive n */
  function LastOf<T>(entries: seq<T>, n: nat): seq<T>
  {
    if |entries| > n then entries[|entries| - n..] else entries
  }

  /** `entries.slice(0, n)` */
  function FirstOf<T>(entries: seq<T>, n: nat): seq<T>
  {
    if |entries| > n then entries[..n] else entries
  }

  function AppendBounded<T>(entries: seq<T>, value: T, limit: int): seq<T>
  {
    LastOf(entries + [value], Bound(limit))
  }

  function EmptyHistory<T>(): HistoryState<T> { HistoryState(None, [], [], None) }

  function ResetHistory<T>(next: T): HistoryState<T> { HistoryState(Some(next), [], [], Some(next)) }

  function UpdateHistory<T(==)>(s: HistoryState<T>, updater: T -> T, limit: int): HistoryState<T>
  {
    if s.value.None? then s
    else
      var next := updater(s.value.value);
      if next == s.value.value then s
      else s.(value := Some(next), past := AppendBounded(s.past, s.value.value, limit), future := [])
  }

  function UndoHistory<T>(s: HistoryState<T>, limit: int): HistoryState<T>
  {
    if s.value.None? || s.past == [] then s
    else
      s.(value := Some(s.past[|s.past| - 1]), past := s.past[..|s.past| - 1],
         future := FirstOf([s.value.value] + s.future, Bound(limit)))
  }

  function RedoHistory<T>(s: HistoryState<T>, limit: int): HistoryState<T>
  {
    if s.value.None? || s.future == [] then s
    else
      s.(value := Some(s.future[0]), past := AppendBounded(s.past, s.value.value, limit), future := s.future[1..])
  }

  function AcceptSavedHistory<T>(s: HistoryState<T>, next: T): HistoryState<T>
  {
    s.(value := Some(next), saved := Some(next))
  }

  predicate IsHistoryDirty<T(==)>(s: HistoryState<T>)
  {
    s.value.Some? && s.saved.Some? && s.value != s.saved
  }

  datatype Op<!T> = Reset(next: T) | Update(updater: T -> T) | Undo | Redo | AcceptSaved(next: T)

  function Apply<T(==)>(s: HistoryState<T>, op: Op<T>, limit: int): HistoryState<T>
  {
    match op
    case Reset(next) => ResetHistory(next)
    case Update(f) => UpdateHistory(s, f, limit)
    case Undo => UndoHistory(s, limit)
    case Redo => RedoHistory(s, limit)
    case AcceptSaved(next) => AcceptSavedHistory(s, next)
  }

  function Run<T(==)>(ops: seq<Op<T>>, limit: int): HistoryState<T>
  {
    if ops == [] then EmptyHistory() else Apply(Run(ops[..|ops| - 1], limit), ops[|ops| - 1], limit)
  }

  // ---------------------------------------------------------------- the bound

  ghost predicate Bounded<T>(s: HistoryState<T>, limit: int)
  {
    |s.past| + |s.future| <= Bound(limit) && (s.value.None? ==> s.past == [] && s.future == [])
  }

  lemma {:induction false} RunIsBounded<T>(ops: seq<Op<T>>, limit: int)
    ensures Bounded(Run(ops, limit), limit)
  {
    if ops != [] {
      RunIsBounded(ops[..|ops| - 1], limit);
    }
  }

  /** In a bounded state nothing is dropped by undo or redo, so each undoes the other exactly. */
  lemma UndoRedoInverse<T>(s: HistoryState<T>, limit: int)
    requires Bounded(s, limit)
    ensures s.past != [] ==> RedoHistory(UndoHistory(s, limit), limit) == s
    ensures s.future != [] ==> UndoHistory(RedoHistory(s, limit), limit) == s
  {
    if s.past != [] {
      var k := |s.past| - 1;
      assert s.past[..k] + [s.past[k]] == s.past;
      assert ([s.value.value] + s.future)[1..] == s.future;
    }
    if s.future != [] {
      assert (s.past + [s.value.value])[..|s.past|] == s.past;
      assert [s.future[0]] + s.future[1..] == s.future;
    }
  }

  // ---------------------------------------------------------------- the timeline

  /**
   * The reference: every value in order, a cursor on the current one, `floor`, below which a user
   * can no longer return, and the value saved last. Only an edit cuts the log, behind the cursor.
   */
  datatype Timeline<T> = Blank | Timeline(log: seq<T>, cursor: nat, floor: nat, saved: T)

  ghost predicate WellFormed<T>(t: Timeline<T>)
  {
    t.Timeline? ==> t.floor <= t.cursor < |t.log|
  }

  function Follow<T(==)>(t: Timeline<T>, op: Op<T>, limit: int): Timeline<T>
    requires WellFormed(t)
  {
    match op
    case Reset(next) => Timeline([next], 0, 0, next)
    case AcceptSaved(next) =>
      if t.Blank? then Timeline([next], 0, 0, next) else t.(log := t.log[t.cursor := next], saved := next)
    case Update(f) =>
      if t.Blank? || f(t.log[t.cursor]) == t.log[t.cursor] then t
      else
        var oldest := t.cursor + 1 - Bound(limit);
        Timeline(t.log[..t.cursor + 1] + [f(t.log[t.cursor])], t.cursor + 1,
                 if oldest > t.floor then oldest else t.floor, t.saved)
    case Undo => if t.Timeline? && t.cursor > t.floor then t.(cursor := t.cursor - 1) else t
    case Redo => if t.Timeline? && t.cursor + 1 < |t.log| then t.(cursor := t.cursor + 1) else t
  }

  ghost predicate Refines<T>(s: HistoryState<T>, t: Timeline<T>)
  {
    && WellFormed(t)
    && if t.Blank? then s == EmptyHistory()
       else
         && s.value == Some(t.log[t.cursor])
         && s.past == t.log[t.floor..t.cursor]
         && s.future == t.log[t.cursor + 1..]
         && s.saved == Some(t.saved)
  }

  function Chronicle<T(==)>(ops: seq<Op<T>>, limit: int): (t: Timeline<T>)
    ensures WellFormed(t)
  {
    if ops == [] then Blank else Follow(Chronicle(ops[..|ops| - 1], limit), ops[|ops| - 1], limit)
  }

  lemma UpdateRefines<T>(s: HistoryState<T>, t: Timeline<T>, f: T -> T, limit: int)
    requires Refines(s, t) && Bounded(s, limit)
    ensures Refines(UpdateHistory(s, f, limit), Follow(t, Update(f), limit))
  {
    if t.Timeline? && f(t.log[t.cursor]) != t.log[t.cursor] {
      var t' := Follow(t, Update(f), limit);
      assert s.past + [s.value.value] == t.log[t.floor..t.cursor + 1];
      assert t'.log[t'.floor..t'.cursor] == t.log[t'.floor..t.cursor + 1];
    }
  }

  lemma UndoRefines<T>(s: HistoryState<T>, t: Timeline<T>, limit: int)
    requires Refines(s, t) && Bounded(s, limit)
    ensures Refines(UndoHistory(s, limit), Follow(t, Undo, limit))
  {
    if t.Timeline? && t.cursor > t.floor {
      assert t.log[t.cursor..] == [s.value.value] + s.future;
      assert t.log[t.floor..t.cursor][..t.cursor - 1 - t.floor] == t.log[t.floor..t.cursor - 1];
    }
  }

  lemma RedoRefines<T>(s: HistoryState<T>, t: Timeline<T>, limit: int)
    requires Refines(s, t) && Bounded(s, limit)
    ensures Refines(RedoHistory(s, limit), Follow(t, Redo, limit))
  {
    if t.Timeline? && t.cursor + 1 < |t.log| {
      assert s.past + [s.value.value] == t.log[t.floor..t.cursor + 1];
      assert s.future[1..] == t.log[t.cursor + 2..];
    }
  }

  /** Every run of the bounded history is a view of the timeline. */
  lemma {:induction false} HistoryRefinesTimeline<T>(ops: seq<Op<T>>, limit: int)
    ensures Refines(Run(ops, limit), Chronicle(ops, limit))
  {
    if ops != [] {
      var before := ops[..|ops| - 1];
      var s, t := Run(before, limit), Chronicle(before, limit);
      HistoryRefinesTimeline(before, limit);
      RunIsBounded(before, limit);
      match ops[|ops| - 1]
      case Reset(next) =>
      case Update(f) => UpdateRefines(s, t, f, limit);
      case Undo => UndoRefines(s, t, limit);
      case Redo => RedoRefines(s, t, limit);
      case AcceptSaved(next) => if t.Timeline? { assert t.log[t.cursor := next][t.cursor + 1..]
          == t.log[t.cursor + 1..]; }
    }
  }

  /** In every run the editor is dirty exactly when the value shown differs from the one saved last. */
  lemma DirtyIff<T>(ops: seq<Op<T>>, limit: int)
    ensures var t := Chronicle(ops, limit);
            IsHistoryDirty(Run(ops, limit)) <==> t.Timeline? && t.log[t.cursor] != t.saved
  {
    HistoryRefinesTimeline(ops, limit);
  }

  // ---------------------------------------------------------------- many steps

  function UndoTimes<T>(s: HistoryState<T>, k: nat, limit: int): HistoryState<T>
  {
    if k == 0 then s else UndoHistory(UndoTimes(s, k - 1, limit), limit)
  }

  function RedoTimes<T>(s: HistoryState<T>, k: nat, limit: int): HistoryState<T>
    decreases k
  {
    if k == 0 then s else RedoTimes(RedoHistory(s, limit), k - 1, limit)
  }

  /** `k` undos show the value `k` places back and keep the bound. */
  lemma {:induction false} UndosGoBack<T>(s: HistoryState<T>, k: nat, limit: int)
    requires Bounded(s, limit) && k <= |s.past|
    ensures var u := UndoTimes(s, k, limit);
      && Bounded(u, limit) && u.past == s.past[..|s.past| - k]
      && u.value == if k == 0 then s.value else Some(s.past[|s.past| - k])
  {
    if k > 0 {
      UndosGoBack(s, k - 1, limit);
      var u := UndoTimes(s, k - 1, limit);
      assert u.past[..|u.past| - 1] == s.past[..|s.past| - k];
    } else {
      assert s.past[..|s.past|] == s.past;
    }
  }

  /** As many redos take all of them back. */
  lemma {:induction false} RedosUndoUndos<T>(s: HistoryState<T>, k: nat, limit: int)
    requires Bounded(s, limit) && k <= |s.past|
    ensures RedoTimes(UndoTimes(s, k, limit), k, limit) == s
  {
    if k > 0 {
      UndosGoBack(s, k - 1, limit);
      UndoRedoInverse(UndoTimes(s, k - 1, limit), limit);
      RedosUndoUndos(s, k - 1, limit);
    }
  }

  lemma PastIsTimeline<T>(s: HistoryState<T>, t: Timeline<T>, k: nat)
    requires Refines(s, t) && 0 < k <= |s.past|
    ensures t.Timeline? && k <= t.cursor && s.past[|s.past| - k] == t.log[t.cursor - k]
  {
  }

  /** `k` undos show what the timeline holds `k` places before its cursor. */
  ghost predicate ReadsBack<T>(s: HistoryState<T>, t: Timeline<T>, k: nat, limit: int)
    requires WellFormed(t)
  {
    && (k > 0 ==> t.Timeline? && k <= t.cursor)
    && (t.Timeline? ==> UndoTimes(s, k, limit).value == Some(t.log[t.cursor - k]))
  }

  lemma UndosRead<T>(s: HistoryState<T>, t: Timeline<T>, k: nat, limit: int)
    requires Views(s, t, limit) && k <= |s.past|
    ensures ReadsBack(s, t, k, limit)
  {
    UndosGoBack(s, k, limit);
    if k > 0 {
      PastIsTimeline(s, t, k);
    }
  }

  /** A state that is a bounded view of a timeline. */
  ghost predicate Views<T>(s: HistoryState<T>, t: Timeline<T>, limit: int) { Refines(s, t) && Bounded(s, limit) }

  lemma RunViews<T>(ops: seq<Op<T>>, limit: int)
    ensures Views(Run(ops, limit), Chronicle(ops, limit), limit)
  {
    HistoryRefinesTimeline(ops, limit);
    RunIsBounded(ops, limit);
  }

  /** So it is in every run, for as many undos as are retained. */
  lemma UndosReadTimeline<T>(ops: seq<Op<T>>, k: nat, limit: int)
    requires k <= |Run(ops, limit).past|
    ensures ReadsBack(Run(ops, limit), Chronicle(ops, limit), k, limit)
  {
    RunViews(ops, limit);
    UndosRead(Run(ops, limit), Chronicle(ops, limit), k, limit);
  }

  /** Each of these edits changes the value it meets. */
  ghost predicate Effective<T>(s: HistoryState<T>, edits: seq<T -> T>, limit: int)
    decreases |edits|
  {
    edits != [] ==>
      && s.value.Some? && edits[0](s.value.value) != s.value.value
      && Effective(UpdateHistory(s, edits[0], limit), edits[1..], limit)
  }

  function UpdateAll<T(==)>(s: HistoryState<T>, edits: seq<T -> T>, limit: int): HistoryState<T>
    decreases |edits|
  {
    if edits == [] then s else UpdateAll(UpdateHistory(s, edits[0], limit), edits[1..], limit)
  }

  /** An edit appends the value it replaces and forgets the oldest ones beyond the bound. */
  lemma EditAppends<T>(s: HistoryState<T>, f: T -> T, limit: int) returns (dropped: nat)
    requires Bounded(s, limit) && s.value.Some? && f(s.value.value) != s.value.value
    ensures var all, next := s.past + [s.value.value], UpdateHistory(s, f, limit);
      && next.value.Some? && Bounded(next, limit) && dropped <= |all| && next.past == all[dropped..]
      && dropped == if |all| > Bound(limit) then |all| - Bound(limit) else 0
  {
    var all := s.past + [s.value.value];
    dropped := if |all| > Bound(limit) then |all| - Bound(limit) else 0;
  }

  /** This value is `k` places back. */
  ghost predicate Remembers<T>(s: HistoryState<T>, k: int, v: T) { 0 < k <= |s.past| && s.past[|s.past| - k] == v }

  /** After any edits, the value before the last `k` of them is `k` places back, for `k` up to the bound. */
  lemma {:induction false} EditsAreRemembered<T>(s: HistoryState<T>, edits: seq<T -> T>, limit: int, back: nat)
    requires Bounded(s, limit) && Effective(s, edits, limit) && s.value.Some?
    requires back <= |s.past|
    requires |s.past| + |edits| - back <= Bound(limit)
    ensures Bounded(UpdateAll(s, edits, limit), limit)
    ensures edits != [] ==>
              Remembers(UpdateAll(s, edits, limit), |s.past| + |edits| - back, (s.past + [s.value.value])[back])
    decreases |edits|
  {
    if edits != [] {
      var next := UpdateHistory(s, edits[0], limit);
      var all := s.past + [s.value.value];
      var dropped := EditAppends(s, edits[0], limit);
      if |edits| > 1 {
        EditsAreRemembered(next, edits[1..], limit, back - dropped);
        assert (next.past + [next.value.value])[back - dropped] == all[back];
      } else {
        assert edits[1..] == [];
      }
    }
  }

  /** Up to `max(1, limit)` edits can all be undone. */
  lemma EditsCanBeUndone<T>(s: HistoryState<T>, edits: seq<T -> T>, limit: int)
    requires Bounded(s, limit) && Effective(s, edits, limit) && |edits| <= Bound(limit)
    ensures UndoTimes(UpdateAll(s, edits, limit), |edits|, limit).value == s.value
  {
    if edits != [] {
      EditsAreRemembered(s, edits, limit, |s.past|);
      UndosGoBack(UpdateAll(s, edits, limit), |edits|, limit);
    }
  }

  /** Saving keeps undo and redo, and leaves the editor clean. */
  lemma SavingKeepsHistory<T>(s: HistoryState<T>, next: T, k: nat, limit: int)
    requires Bounded(s, limit) && s.value.Some? && k <= |s.past|
    ensures !IsHistoryDirty(AcceptSavedHistory(s, next)) && AcceptSavedHistory(s, next).value == Some(next)
    ensures k > 0 ==> UndoTimes(AcceptSavedHistory(s, next), k, limit).value == UndoTimes(s, k, limit).value
  {
    UndosGoBack(s, k, limit);
    UndosGoBack(AcceptSavedHistory(s, next), k, limit);
  }
}
