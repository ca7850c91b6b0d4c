/** When draining in id order and applying in commit order agree: for exactly those tuples that no two
    transactions under different locks can, at the same time, be about to leave in opposite states. */
module OutboxConflicts {
  import opened Common
  import opened FgaIntents
  import opened RegistryStore
  import opened UseCases
  import opened OutboxOrder
  import opened OutboxFold

  /** What the rows leave a tuple as, whatever it was: present, absent, or untouched. */
  function LastEffect(rows: seq<OutboxIntent>, tuple: Tuple): Option<bool> {
    if rows == [] then None
    else if tuple in rows[|rows| - 1].intent.tuples then Some(rows[|rows| - 1].event.Register?)
    else LastEffect(rows[..|rows| - 1], tuple)
  }

  /** The two transactions do not leave the tuple in opposite states. */
  predicate Compatible(a: Request, b: Request, tuple: Tuple) {
    var x, y := LastEffect(Rows(a), tuple), LastEffect(Rows(b), tuple);
    x.None? || y.None? || x == y
  }

  predicate Committable(w: World, r: Request) {
    Execute(SlotOf(w.registries, r.registryId), DmlOf(r)).Success?
  }

  /** Which transactions there are. */
  type Family = Request -> bool

  ghost predicate From(steps: seq<Step>, allowed: Family) {
    forall s <- steps :: s.Begin? ==> allowed(s.request)
  }

  /** Two transactions under different locks could both run now, and disagree about the tuple. */
  ghost predicate ConflictIn(w: World, a: Request, b: Request, allowed: Family, tuple: Tuple) {
    && w.live == map[] && allowed(a) && allowed(b) && LockOf(a) != LockOf(b)
    && Committable(w, a) && Committable(w, b) && !Compatible(a, b, tuple)
  }

  ghost predicate Reached(w: World, allowed: Family) {
    exists steps :: Runs(INIT, steps, w) && From(steps, allowed)
  }

  ghost predicate Conflicts(allowed: Family, tuple: Tuple) {
    exists w, a, b :: Reached(w, allowed) && ConflictIn(w, a, b, allowed, tuple)
  }

  ghost predicate Agrees(w: World, tuple: Tuple) {
    FoldById(w.outbox, w.nextId, tuple) == FoldByCommit(w.commits, tuple)
  }

  // ---- the last row that mentions the tuple decides ----

  lemma {:induction false} EffectDecides(rows: seq<OutboxIntent>, tuple: Tuple, present: bool)
    ensures ApplyRows(rows, tuple, present)
         == match LastEffect(rows, tuple) { case None => present case Some(e) => e }
  {
    if rows != [] {
      EffectDecides(rows[..|rows| - 1], tuple, present);
    }
  }

  lemma {:induction false} EffectMentions(rows: seq<OutboxIntent>, tuple: Tuple)
    ensures LastEffect(rows, tuple).Some? <==> exists i :: 0 <= i < |rows| && tuple in rows[i].intent.tuples
  {
    if rows != [] {
      var front := rows[..|rows| - 1];
      EffectMentions(front, tuple);
      assert forall i :: 0 <= i < |front| ==> front[i] == rows[i];
    }
  }

  lemma {:induction false} LastMention(rows: seq<OutboxIntent>, tuple: Tuple) returns (m: nat)
    requires LastEffect(rows, tuple).Some?
    ensures m < |rows| && tuple in rows[m].intent.tuples
    ensures Some(rows[m].event.Register?) == LastEffect(rows, tuple)
    ensures forall j :: m < j < |rows| ==> tuple !in rows[j].intent.tuples
  {
    m := |rows| - 1;
    if tuple !in rows[m].intent.tuples {
      m := LastMention(rows[..m], tuple);
    }
  }

  predicate MentionsAt(outbox: map<nat, OutboxRow>, id: nat, tuple: Tuple) {
    id in outbox && tuple in outbox[id].intent.intent.tuples
  }

  /** Of all visible rows below n the last one that mentions the tuple. */
  ghost predicate Top(outbox: map<nat, OutboxRow>, n: nat, id: nat, tuple: Tuple) {
    id < n && MentionsAt(outbox, id, tuple) && forall j :: id < j < n ==> !MentionsAt(outbox, j, tuple)
  }

  lemma {:induction false} TopDecides(outbox: map<nat, OutboxRow>, n: nat, id: nat, tuple: Tuple)
    requires Top(outbox, n, id, tuple)
    ensures FoldById(outbox, n, tuple) == outbox[id].intent.event.Register?
  {
    if n - 1 != id {
      assert !MentionsAt(outbox, n - 1, tuple);
      TopDecides(outbox, n - 1, id, tuple);
    }
  }

  lemma {:induction false} TopExists(outbox: map<nat, OutboxRow>, n: nat, id: nat, tuple: Tuple) returns (top: nat)
    requires id < n && MentionsAt(outbox, id, tuple)
    ensures Top(outbox, n, top, tuple) && id <= top
  {
    if id == n - 1 || !(exists j :: id < j < n && MentionsAt(outbox, j, tuple)) {
      top := id;
    } else if MentionsAt(outbox, n - 1, tuple) {
      top := n - 1;
    } else {
      top := TopExists(outbox, n - 1, id, tuple);
      forall j | top < j < n ensures !MentionsAt(outbox, j, tuple) {
      }
    }
  }

  lemma {:induction false} AddRowsAt(outbox: map<nat, OutboxRow>, ids: seq<nat>, rows: seq<OutboxIntent>,
                                     writer: Request)
    requires |ids| == |rows| && Increasing(ids)
    ensures var added := AddRows(outbox, ids, rows, writer);
            && (forall i :: 0 <= i < |ids| ==> ids[i] in added && added[ids[i]] == OutboxRow(rows[i], writer))
            && (forall id :: id !in ids ==> (id in added <==> id in outbox))
            && (forall id :: id !in ids && id in outbox ==> added[id] == outbox[id])
  {
    if ids != [] {
      var k := |ids| - 1;
      var front := ids[..k];
      AddRowsAt(outbox, front, rows[..k], writer);
      assert ids == front + [ids[k]];
      assert forall i :: 0 <= i < k ==> front[i] == ids[i] != ids[k];
    }
  }

  // ---- without conflicts the two orders agree ----

  /** Every visible mention is followed by the last mention of its transaction. */
  ghost predicate Complete(outbox: map<nat, OutboxRow>, id: nat, tuple: Tuple)
    requires id in outbox
  {
    exists j :: id <= j && MentionsAt(outbox, j, tuple) && outbox[j].writer == outbox[id].writer
                && LastEffect(Rows(outbox[id].writer), tuple) == Some(outbox[j].intent.event.Register?)
  }

  ghost predicate AllComplete(outbox: map<nat, OutboxRow>, tuple: Tuple) {
    forall id <- outbox :: MentionsAt(outbox, id, tuple) ==> Complete(outbox, id, tuple)
  }

  /** A transaction's rows are compatible with everything that became visible since it began. */
  ghost predicate CompatibleSince(w: World, tx: Tx, tuple: Tuple) {
    forall id <- w.outbox :: id >= tx.base ==> Compatible(w.outbox[id].writer, tx.request, tuple)
  }

  ghost predicate AllCompatibleSince(w: World, tuple: Tuple) {
    forall t <- w.live :: CompatibleSince(w, w.live[t], tuple)
  }

  ghost predicate AllAllowed(w: World, allowed: Family) {
    forall t <- w.live :: allowed(w.live[t].request)
  }

  ghost predicate PairsCompatible(w: World, tuple: Tuple) {
    forall t <- w.live, u <- w.live | t != u :: Compatible(w.live[t].request, w.live[u].request, tuple)
  }

  ghost predicate Calm(w: World, allowed: Family, tuple: Tuple) {
    && AllAllowed(w, allowed) && AllCompatibleSince(w, tuple) && PairsCompatible(w, tuple)
    && AllComplete(w.outbox, tuple) && Agrees(w, tuple)
  }

  /** Rolling back whatever is open leads to a world at rest with the same tables. */
  lemma {:induction false} Rest(before: seq<Step>, w: World, allowed: Family) returns (steps: seq<Step>, rest: World)
    requires Runs(INIT, before, w) && From(before, allowed)
    ensures Runs(INIT, steps, rest) && From(steps, allowed) && rest.live == map[] && rest.registries == w.registries
    decreases |w.live|
  {
    if w.live == map[] {
      steps, rest := before, w;
    } else {
      var t :| t in w.live;
      var next := Apply(w, Rollback(t));
      assert next.live.Keys == w.live.Keys - {t};
      Extend(INIT, before, w, Rollback(t));
      steps, rest := Rest(before + [Rollback(t)], next, allowed);
    }
  }

  lemma {:induction false} Extend(w: World, steps: seq<Step>, w1: World, step: Step)
    requires Runs(w, steps, w1) && Enabled(w1, step)
    ensures Runs(w, steps + [step], Apply(w1, step))
    decreases |steps|
  {
    if steps == [] {
      assert Runs(Apply(w, step), [], Apply(w1, step));
    } else {
      Extend(Apply(w, steps[0]), steps[1..], w1, step);
      assert (steps + [step])[1..] == steps[1..] + [step];
    }
  }

  lemma OpenIsCommittable(w: World, t: nat)
    requires Inv(w) && t in w.live
    ensures Committable(w, w.live[t].request)
  {
    assert TxOk(w, w.live[t]);
  }

  /** A transaction that can begin beside an open one does not disagree with it. */
  lemma BeginCompatible(before: seq<Step>, w: World, t: nat, r: Request, u: nat, allowed: Family, tuple: Tuple)
    requires Runs(INIT, before, w) && From(before, allowed) && !Conflicts(allowed, tuple)
    requires Inv(w) && Enabled(w, Begin(t, r)) && allowed(r) && u in w.live && allowed(w.live[u].request)
    ensures Compatible(w.live[u].request, r, tuple)
  {
    var steps, rest := Rest(before, w, allowed);
    assert Reached(rest, allowed);
    OpenIsCommittable(w, u);
    if !Compatible(w.live[u].request, r, tuple) {
      assert ConflictIn(rest, w.live[u].request, r, allowed, tuple);
    }
  }

  lemma BeginStaysCalm(before: seq<Step>, w: World, t: nat, r: Request, allowed: Family, tuple: Tuple)
    requires Runs(INIT, before, w) && From(before, allowed) && !Conflicts(allowed, tuple)
    requires Inv(w) && Calm(w, allowed, tuple) && Enabled(w, Begin(t, r)) && allowed(r)
    ensures Calm(Apply(w, Begin(t, r)), allowed, tuple)
  {
    forall u <- w.live ensures Compatible(w.live[u].request, r, tuple) {
      BeginCompatible(before, w, t, r, u, allowed, tuple);
    }
    BeginSince(w, t, r, tuple);
    BeginPairs(w, t, r, tuple);
  }

  lemma BeginSince(w: World, t: nat, r: Request, tuple: Tuple)
    requires (forall id <- w.outbox :: id < w.nextId) && AllCompatibleSince(w, tuple) && Enabled(w, Begin(t, r))
    ensures AllCompatibleSince(Apply(w, Begin(t, r)), tuple)
  {
  }

  lemma BeginPairs(w: World, t: nat, r: Request, tuple: Tuple)
    requires PairsCompatible(w, tuple) && Enabled(w, Begin(t, r))
    requires forall u <- w.live :: Compatible(w.live[u].request, r, tuple)
    ensures PairsCompatible(Apply(w, Begin(t, r)), tuple)
  {
  }

  /** The outbox after a transaction's rows became visible. */
  ghost predicate Added(outbox: map<nat, OutboxRow>, after: map<nat, OutboxRow>, ids: seq<nat>, writer: Request) {
    && Increasing(ids) && |ids| == |Rows(writer)|
    && (forall id <- ids :: id !in outbox)
    && (forall i :: 0 <= i < |ids| ==> ids[i] in after && after[ids[i]] == OutboxRow(Rows(writer)[i], writer))
    && (forall id :: id !in ids ==> (id in after <==> id in outbox))
    && (forall id :: id !in ids && id in outbox ==> after[id] == outbox[id])
  }

  lemma CommitAdds(w: World, t: nat)
    requires Inv(w) && Enabled(w, Commit(t))
    ensures Added(w.outbox, Apply(w, Commit(t)).outbox, w.live[t].drawn, w.live[t].request)
    ensures forall id <- w.live[t].drawn :: w.live[t].base <= id < w.nextId
  {
    var tx := w.live[t];
    assert TxOk(w, tx);
    AddRowsAt(w.outbox, tx.drawn, Rows(tx.request), tx.request);
  }

  /** If the last mention is the transaction's own, it is its last one. */
  lemma OwnTopDecides(outbox: map<nat, OutboxRow>, after: map<nat, OutboxRow>, ids: seq<nat>, writer: Request,
                      n: nat, top: nat, tuple: Tuple)
    requires Added(outbox, after, ids, writer) && Top(after, n, top, tuple) && top in ids
    requires forall id <- ids :: id < n
    ensures LastEffect(Rows(writer), tuple) == Some(after[top].intent.event.Register?)
  {
    var i :| 0 <= i < |ids| && ids[i] == top;
    EffectMentions(Rows(writer), tuple);
    var m := LastMention(Rows(writer), tuple);
    assert i <= m && MentionsAt(after, ids[m], tuple);
    assert forall k :: 0 <= k < m ==> ids[k] < ids[m];
    assert i == m;
  }

  /** If the last mention was there before, it is the last one of its transaction. */
  lemma OtherTopDecides(outbox: map<nat, OutboxRow>, after: map<nat, OutboxRow>, ids: seq<nat>, writer: Request,
                        n: nat, top: nat, tuple: Tuple)
    requires Added(outbox, after, ids, writer) && Top(after, n, top, tuple) && top !in ids
    requires AllComplete(outbox, tuple) && forall id <- outbox :: id < n
    ensures top in outbox && outbox[top] == after[top]
    ensures LastEffect(Rows(outbox[top].writer), tuple) == Some(after[top].intent.event.Register?)
  {
    assert MentionsAt(outbox, top, tuple) && Complete(outbox, top, tuple);
    var j :| top <= j && MentionsAt(outbox, j, tuple) && outbox[j].writer == outbox[top].writer
             && LastEffect(Rows(outbox[top].writer), tuple) == Some(outbox[j].intent.event.Register?);
    assert MentionsAt(after, j, tuple);
    assert j == top;
  }

  /** Whatever committed while the transaction was open agrees with it, so its rows decide. */
  lemma CommitDecides(w: World, t: nat, tuple: Tuple)
    requires Inv(w) && Enabled(w, Commit(t)) && AllComplete(w.outbox, tuple) && CompatibleSince(w, w.live[t], tuple)
    requires LastEffect(Rows(w.live[t].request), tuple).Some?
    ensures LastEffect(Rows(w.live[t].request), tuple) == Some(FoldById(Apply(w, Commit(t)).outbox, w.nextId, tuple))
  {
    var tx := w.live[t];
    CommitAdds(w, t);
    AddedRowsDecide(w.outbox, Apply(w, Commit(t)).outbox, tx.drawn, tx.request, tx.base, w.nextId, tuple);
  }

  lemma AddedRowsDecide(outbox: map<nat, OutboxRow>, after: map<nat, OutboxRow>, ids: seq<nat>, writer: Request,
                        base: nat, n: nat, tuple: Tuple)
    requires Added(outbox, after, ids, writer) && AllComplete(outbox, tuple) && LastEffect(Rows(writer), tuple).Some?
    requires (forall id <- ids :: base <= id < n) && (forall id <- outbox :: id < n)
    requires forall id <- outbox :: id >= base ==> Compatible(outbox[id].writer, writer, tuple)
    ensures LastEffect(Rows(writer), tuple) == Some(FoldById(after, n, tuple))
  {
    var m := LastMention(Rows(writer), tuple);
    var own := ids[m];
    assert own in ids && MentionsAt(after, own, tuple);
    var top := TopExists(after, n, own, tuple);
    TopDecides(after, n, top, tuple);
    if top in ids {
      OwnTopDecides(outbox, after, ids, writer, n, top, tuple);
    } else {
      OtherTopDecides(outbox, after, ids, writer, n, top, tuple);
    }
  }

  lemma {:induction false} UnmentionedRows(outbox: map<nat, OutboxRow>, n: nat, ids: seq<nat>, rows: seq<OutboxIntent>,
                                           writer: Request, tuple: Tuple)
    requires |ids| == |rows| && Increasing(ids) && LastEffect(rows, tuple).None?
    requires forall i :: 0 <= i < |ids| ==> ids[i] !in outbox
    ensures FoldById(AddRows(outbox, ids, rows, writer), n, tuple) == FoldById(outbox, n, tuple)
  {
    if ids != [] {
      var k := |ids| - 1;
      UnmentionedRows(outbox, n, ids[..k], rows[..k], writer, tuple);
      AddRowsKeys(outbox, ids[..k], rows[..k], writer);
      FoldNeutral(AddRows(outbox, ids[..k], rows[..k], writer), n, ids[k], OutboxRow(rows[k], writer), tuple);
    }
  }

  lemma CommitFolds(commits: seq<Committed>, c: Committed, tuple: Tuple)
    ensures FoldByCommit(commits + [c], tuple)
         == match LastEffect(Rows(c.request), tuple) { case None => FoldByCommit(commits, tuple) case Some(e) => e }
  {
    EffectDecides(Rows(c.request), tuple, FoldByCommit(commits, tuple));
    assert (commits + [c])[..|commits|] == commits;
  }

  lemma CommitAgrees(w: World, t: nat, tuple: Tuple)
    requires Inv(w) && Enabled(w, Commit(t)) && AllComplete(w.outbox, tuple) && CompatibleSince(w, w.live[t], tuple)
    requires Agrees(w, tuple)
    ensures Agrees(Apply(w, Commit(t)), tuple)
  {
    var tx := w.live[t];
    CommitFolds(w.commits, Committed(tx.request, tx.drawn), tuple);
    if LastEffect(Rows(tx.request), tuple).Some? {
      CommitDecides(w, t, tuple);
    } else {
      CommitAdds(w, t);
      UnmentionedRows(w.outbox, w.nextId, tx.drawn, Rows(tx.request), tx.request, tuple);
    }
  }

  lemma OwnComplete(outbox: map<nat, OutboxRow>, after: map<nat, OutboxRow>, ids: seq<nat>, writer: Request,
                    id: nat, tuple: Tuple)
    requires Added(outbox, after, ids, writer) && id in ids && MentionsAt(after, id, tuple)
    ensures Complete(after, id, tuple)
  {
    var i :| 0 <= i < |ids| && ids[i] == id;
    EffectMentions(Rows(writer), tuple);
    var m := LastMention(Rows(writer), tuple);
    assert i <= m;
    assert i < m ==> ids[i] < ids[m];
    assert MentionsAt(after, ids[m], tuple);
  }

  lemma OtherComplete(outbox: map<nat, OutboxRow>, after: map<nat, OutboxRow>, ids: seq<nat>, writer: Request,
                      id: nat, tuple: Tuple)
    requires Added(outbox, after, ids, writer) && id in outbox && Complete(outbox, id, tuple)
    ensures Complete(after, id, tuple)
  {
    var j :| id <= j && MentionsAt(outbox, j, tuple) && outbox[j].writer == outbox[id].writer
             && LastEffect(Rows(outbox[id].writer), tuple) == Some(outbox[j].intent.event.Register?);
    assert MentionsAt(after, j, tuple);
  }

  lemma CommitStaysComplete(w: World, t: nat, tuple: Tuple)
    requires Inv(w) && Enabled(w, Commit(t)) && AllComplete(w.outbox, tuple)
    ensures AllComplete(Apply(w, Commit(t)).outbox, tuple)
  {
    var tx := w.live[t];
    var after := Apply(w, Commit(t)).outbox;
    CommitAdds(w, t);
    forall id <- after | MentionsAt(after, id, tuple) ensures Complete(after, id, tuple) {
      if id in tx.drawn {
        OwnComplete(w.outbox, after, tx.drawn, tx.request, id, tuple);
      } else {
        assert MentionsAt(w.outbox, id, tuple);
        OtherComplete(w.outbox, after, tx.drawn, tx.request, id, tuple);
      }
    }
  }

  lemma CommitStaysCalm(w: World, t: nat, allowed: Family, tuple: Tuple)
    requires Inv(w) && Calm(w, allowed, tuple) && Enabled(w, Commit(t))
    ensures Calm(Apply(w, Commit(t)), allowed, tuple)
  {
    var w' := Apply(w, Commit(t));
    var tx := w.live[t];
    CommitAgrees(w, t, tuple);
    CommitStaysComplete(w, t, tuple);
    AddRowsKeys(w.outbox, tx.drawn, Rows(tx.request), tx.request);
    forall u <- w'.live ensures CompatibleSince(w', w'.live[u], tuple) {
      assert w'.live[u] == w.live[u] && u != t;
    }
  }

  lemma OtherStepsStayCalm(w: World, step: Step, allowed: Family, tuple: Tuple)
    requires Inv(w) && Calm(w, allowed, tuple) && Enabled(w, step) && (step.Emit? || step.Rollback?)
    ensures Calm(Apply(w, step), allowed, tuple)
  {
    var w' := Apply(w, step);
    FoldExtend(w.outbox, w.nextId, w'.nextId, tuple);
    forall u <- w'.live ensures CompatibleSince(w', w'.live[u], tuple) {
      assert w'.live[u].base == w.live[u].base && w'.live[u].request == w.live[u].request;
    }
  }

  lemma {:induction false} CalmFrom(before: seq<Step>, w: World, steps: seq<Step>, w': World,
                                    allowed: Family, tuple: Tuple)
    requires Runs(INIT, before, w) && From(before, allowed) && !Conflicts(allowed, tuple)
    requires Inv(w) && Calm(w, allowed, tuple) && Runs(w, steps, w') && From(steps, allowed)
    ensures Agrees(w', tuple)
    decreases |steps|
  {
    if steps != [] {
      var step := steps[0];
      assert step in steps;
      StepKeepsInv(w, step);
      Extend(INIT, before, w, step);
      match step {
        case Begin(t, r) => BeginStaysCalm(before, w, t, r, allowed, tuple);
        case Commit(t) => CommitStaysCalm(w, t, allowed, tuple);
        case _ => OtherStepsStayCalm(w, step, allowed, tuple);
      }
      CalmFrom(before + [step], Apply(w, step), steps[1..], w', allowed, tuple);
    }
  }

  // ---- a conflict makes them disagree ----

  function WithDrawn(w: World, t: nat, ids: seq<nat>, next: nat): World
    requires t in w.live
  {
    w.(live := w.live[t := w.live[t].(drawn := w.live[t].drawn + ids)], nextId := next)
  }

  lemma DrawnTwice(w: World, t: nat, first: seq<nat>, ids: seq<nat>, n: nat, next: nat)
    requires t in w.live
    ensures WithDrawn(WithDrawn(w, t, first, n), t, ids, next) == WithDrawn(w, t, first + ids, next)
  {
    var drawn := w.live[t].drawn;
    assert drawn + first + ids == drawn + (first + ids);
    var tx := w.live[t].(drawn := drawn + (first + ids));
    assert w.live[t := w.live[t].(drawn := drawn + first)][t := tx] == w.live[t := tx];
  }

  lemma DrawOne(before: seq<Step>, w: World, t: nat, allowed: Family)
    requires Runs(INIT, before, w) && From(before, allowed) && t in w.live
    requires |w.live[t].drawn| < |Rows(w.live[t].request)|
    ensures Runs(INIT, before + [Emit(t)], WithDrawn(w, t, [w.nextId], w.nextId + 1))
    ensures From(before + [Emit(t)], allowed)
  {
    Extend(INIT, before, w, Emit(t));
  }

  lemma {:induction false} DrawAll(before: seq<Step>, w: World, t: nat, allowed: Family)
    returns (steps: seq<Step>, ids: seq<nat>, next: nat)
    requires Runs(INIT, before, w) && From(before, allowed) && t in w.live
    requires |w.live[t].drawn| <= |Rows(w.live[t].request)|
    ensures Runs(INIT, steps, WithDrawn(w, t, ids, next)) && From(steps, allowed)
    ensures w.nextId <= next && forall id <- ids :: w.nextId <= id < next
    ensures |w.live[t].drawn + ids| == |Rows(w.live[t].request)|
    decreases |Rows(w.live[t].request)| - |w.live[t].drawn|
  {
    if |w.live[t].drawn| == |Rows(w.live[t].request)| {
      steps, ids, next := before, [], w.nextId;
      assert w.live[t].drawn + [] == w.live[t].drawn;
      assert w.live[t := w.live[t]] == w.live;
    } else {
      var first := [w.nextId];
      var drew := WithDrawn(w, t, first, w.nextId + 1);
      DrawOne(before, w, t, allowed);
      steps, ids, next := DrawAll(before + [Emit(t)], drew, t, allowed);
      DrawnTwice(w, t, first, ids, w.nextId + 1, next);
      assert drew.live[t].drawn + ids == w.live[t].drawn + (first + ids);
      ids := first + ids;
    }
  }

  /** Opens a transaction and draws all its ids. */
  lemma OpenAndDrawAll(before: seq<Step>, w: World, t: nat, r: Request, allowed: Family)
    returns (steps: seq<Step>, w': World, ids: seq<nat>)
    requires Runs(INIT, before, w) && From(before, allowed) && allowed(r) && Enabled(w, Begin(t, r))
    ensures Runs(INIT, steps, w') && From(steps, allowed)
    ensures w.nextId <= w'.nextId && |ids| == |Rows(r)| && forall id <- ids :: w.nextId <= id < w'.nextId
    ensures w' == w.(live := w.live[t := Tx(r, SlotOf(w.registries, r.registryId), w.nextId, ids)], nextId := w'.nextId)
  {
    Extend(INIT, before, w, Begin(t, r));
    var begun := Apply(w, Begin(t, r));
    var next;
    steps, ids, next := DrawAll(before + [Begin(t, r)], begun, t, allowed);
    w' := WithDrawn(begun, t, ids, next);
    assert [] + ids == ids;
    assert begun.live[t := w'.live[t]] == w.live[t := w'.live[t]];
  }

  /** Both transactions have drawn their ids, the first one all of them below the second one's. */
  ghost predicate BothReady(w1: World, w: World, slow: Request, fast: Request, low: seq<nat>, high: seq<nat>, n: nat) {
    && w.registries == w1.registries && w.outbox == w1.outbox && w.commits == w1.commits
    && w.live.Keys == {0, 1} && w.live[0].request == slow && w.live[1].request == fast
    && w.live[0].drawn == low && w.live[1].drawn == high
    && |low| == |Rows(slow)| && |high| == |Rows(fast)|
    && w1.nextId <= n <= w.nextId
    && (forall id <- low :: w1.nextId <= id < n) && (forall id <- high :: n <= id < w.nextId)
  }

  lemma DrawBoth(before: seq<Step>, w1: World, slow: Request, fast: Request, allowed: Family)
    returns (steps: seq<Step>, w: World, low: seq<nat>, high: seq<nat>, n: nat)
    requires Runs(INIT, before, w1) && From(before, allowed) && w1.live == map[] && allowed(slow) && allowed(fast)
    requires LockOf(slow) != LockOf(fast) && Committable(w1, slow) && Committable(w1, fast)
    ensures Runs(INIT, steps, w) && From(steps, allowed) && BothReady(w1, w, slow, fast, low, high, n)
  {
    steps, w, low := OpenAndDrawAll(before, w1, 0, slow, allowed);
    n := w.nextId;
    steps, w, high := OpenAndDrawAll(steps, w, 1, fast, allowed);
  }

  lemma LaterRowsSilent(middle: map<nat, OutboxRow>, ids: seq<nat>, writer: Request, m: nat, j: nat, tuple: Tuple)
    requires Increasing(ids) && |ids| == |Rows(writer)| && m < |ids| && j in ids && ids[m] < j
    requires forall i :: 0 <= i < |ids| ==> ids[i] in middle && middle[ids[i]] == OutboxRow(Rows(writer)[i], writer)
    requires forall i :: m < i < |ids| ==> tuple !in Rows(writer)[i].intent.tuples
    ensures !MentionsAt(middle, j, tuple)
  {
    var i :| 0 <= i < |ids| && ids[i] == j;
    assert forall k :: 0 <= k <= m ==> ids[k] <= ids[m];
    assert m < i;
  }

  /** The second one's last mention is the last of all: its ids are above everything. */
  lemma HighRowsDecide(outbox: map<nat, OutboxRow>, middle: map<nat, OutboxRow>, after: map<nat, OutboxRow>,
                       high: seq<nat>, fast: Request, low: seq<nat>, slow: Request, n: nat, end: nat, tuple: Tuple)
    requires Added(outbox, middle, high, fast) && Added(middle, after, low, slow)
    requires (forall id <- outbox :: id < n) && (forall id <- low :: id < n) && (forall id <- high :: n <= id < end)
    requires LastEffect(Rows(fast), tuple).Some?
    ensures LastEffect(Rows(fast), tuple) == Some(FoldById(after, end, tuple))
  {
    var m := LastMention(Rows(fast), tuple);
    var top := high[m];
    assert top in high && top !in low && MentionsAt(after, top, tuple);
    forall j | top < j < end ensures !MentionsAt(after, j, tuple) {
      assert j !in low && j !in outbox;
      if j in high {
        LaterRowsSilent(middle, high, fast, m, j, tuple);
      }
    }
    TopDecides(after, end, top, tuple);
  }

  /** Commits the second transaction, then the first. */
  lemma CommitBoth(before: seq<Step>, ready: World, slow: Request, fast: Request, low: seq<nat>, high: seq<nat>,
                   w1: World, n: nat, allowed: Family) returns (steps: seq<Step>, w: World)
    requires Runs(INIT, before, ready) && From(before, allowed) && BothReady(w1, ready, slow, fast, low, high, n)
    ensures Runs(INIT, steps, w) && From(steps, allowed)
    ensures w.nextId == ready.nextId
    ensures w.outbox == AddRows(AddRows(ready.outbox, high, Rows(fast), fast), low, Rows(slow), slow)
    ensures w.commits == ready.commits + [Committed(fast, high)] + [Committed(slow, low)]
  {
    Extend(INIT, before, ready, Commit(1));
    var middle := Apply(ready, Commit(1));
    assert middle.live[0] == ready.live[0];
    Extend(INIT, before + [Commit(1)], middle, Commit(0));
    steps, w := before + [Commit(1)] + [Commit(0)], Apply(middle, Commit(0));
  }

  lemma BothVisible(before: seq<Step>, w1: World, steps: seq<Step>, w: World, slow: Request, fast: Request,
                    low: seq<nat>, high: seq<nat>, n: nat, tuple: Tuple)
    requires Runs(INIT, before, w1) && Runs(INIT, steps, w)
    requires BothReady(w1, w, slow, fast, low, high, n) && LastEffect(Rows(fast), tuple).Some?
    ensures LastEffect(Rows(fast), tuple)
         == Some(FoldById(AddRows(AddRows(w.outbox, high, Rows(fast), fast), low, Rows(slow), slow), w.nextId, tuple))
  {
    RunKeepsInv(INIT, before, w1);
    RunKeepsInv(INIT, steps, w);
    assert TxOk(w, w.live[0]) && TxOk(w, w.live[1]);
    var middle := AddRows(w.outbox, high, Rows(fast), fast);
    AddRowsAt(w.outbox, high, Rows(fast), fast);
    AddRowsAt(middle, low, Rows(slow), slow);
    HighRowsDecide(w.outbox, middle, AddRows(middle, low, Rows(slow), slow), high, fast, low, slow, n, w.nextId, tuple);
  }

  /** The transaction that drew its ids first commits last: drained in id order the other one's rows are
      applied last, so a tuple the two leave in opposite states ends in the wrong one. */
  lemma TwoLocksDisagree(before: seq<Step>, w1: World, slow: Request, fast: Request, allowed: Family, tuple: Tuple)
    returns (steps: seq<Step>, w: World, low: seq<nat>, high: seq<nat>)
    requires Runs(INIT, before, w1) && From(before, allowed) && ConflictIn(w1, slow, fast, allowed, tuple)
    ensures Runs(INIT, steps, w) && From(steps, allowed)
    ensures w.commits == w1.commits + [Committed(fast, high)] + [Committed(slow, low)]
    ensures forall a <- low, b <- high :: a < b
    ensures LastEffect(Rows(fast), tuple) == Some(FoldById(w.outbox, w.nextId, tuple))
    ensures LastEffect(Rows(slow), tuple) == Some(FoldByCommit(w.commits, tuple))
    ensures !Agrees(w, tuple)
  {
    var ready, n;
    steps, ready, low, high, n := DrawBoth(before, w1, slow, fast, allowed);
    BothVisible(before, w1, steps, ready, slow, fast, low, high, n, tuple);
    steps, w := CommitBoth(steps, ready, slow, fast, low, high, w1, n, allowed);
    LastCommitDecides(w.commits, tuple);
  }

  lemma LastCommitDecides(commits: seq<Committed>, tuple: Tuple)
    requires commits != [] && LastEffect(Rows(commits[|commits| - 1].request), tuple).Some?
    ensures LastEffect(Rows(commits[|commits| - 1].request), tuple) == Some(FoldByCommit(commits, tuple))
  {
    var n := |commits| - 1;
    EffectDecides(Rows(commits[n].request), tuple, FoldByCommit(commits[..n], tuple));
  }

  // ---- the exact condition ----

  /** Draining in id order reaches the state of the last commit in every interleaving, exactly when no
      two of the transactions, under different locks and able to run at the same time, leave the tuple
      in opposite states. */
  lemma DrainAgreesIffNoConflict(allowed: Family, tuple: Tuple)
    ensures (forall w :: Reached(w, allowed) ==> Agrees(w, tuple)) <==> !Conflicts(allowed, tuple)
  {
    if Conflicts(allowed, tuple) {
      var w1, slow, fast :| Reached(w1, allowed) && ConflictIn(w1, slow, fast, allowed, tuple);
      var before :| Runs(INIT, before, w1) && From(before, allowed);
      var steps, w, low, high := TwoLocksDisagree(before, w1, slow, fast, allowed, tuple);
      assert Reached(w, allowed) && !Agrees(w, tuple);
    } else {
      forall w | Reached(w, allowed) ensures Agrees(w, tuple) {
        var steps :| Runs(INIT, steps, w) && From(steps, allowed);
        CalmFrom([], INIT, steps, w, allowed, tuple);
      }
    }
  }

  /** One lock guards the tuple: every transaction that mentions it takes that lock. */
  ghost predicate OneLock(allowed: Family, tuple: Tuple, lock: Lock) {
    forall r: Request :: allowed(r) && Mentions(Rows(r), tuple) ==> LockOf(r) == lock
  }

  /** A tuple that one lock guards is never in conflict. */
  lemma OneLockNeverConflicts(allowed: Family, tuple: Tuple, lock: Lock)
    requires OneLock(allowed, tuple, lock)
    ensures !Conflicts(allowed, tuple)
  {
    forall w, a, b | Reached(w, allowed) ensures !ConflictIn(w, a, b, allowed, tuple) {
      EffectMentions(Rows(a), tuple);
      EffectMentions(Rows(b), tuple);
      if ConflictIn(w, a, b, allowed, tuple) {
        assert Mentions(Rows(a), tuple) && Mentions(Rows(b), tuple);
      }
    }
  }
}
