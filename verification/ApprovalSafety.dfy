/** What every run of the approval path keeps about its two tables. */
module ApprovalSafety {
  import opened Basics
  import opened OrderRules
  import opened OrderProtocol
  import opened OrderSafety
  import opened Approval

  // ---------- the invariant that needs no discipline ----------

  predicate ClaimsFit(p: Pending) {
    match p.stage
    case Awaiting => p.claims == 0
    case Approved => p.claims == 0
    case Declined => p.claims <= 1
    case _ => p.claims == 1
  }

  predicate RecordOk(y: Sys, id: string)
    requires id in y.pending
  {
    var p := y.pending[id];
    var key := KeyFor(y, id);
    && ClaimsFit(p)
    && (p.executedId.Some? ==> p.stage.Executed?)
    && (p.stage.Executed? ==> key in y.orders.rows && DefiniteSuccess(y.orders.rows[key].report.status))
  }

  predicate HandlerOk(y: Sys, id: string) {
    id in y.pending && y.pending[id].stage.Executing? && y.orders.serving
  }

  predicate CallerOk(y: Sys, a: string)
    requires a in y.orders.holds
  {
    y.orders.holds[a].caller.Some? ==>
      var id := y.orders.holds[a].caller.value;
      && id in y.handlers && y.handlers[id] && id in y.pending && id !in y.orders.replies
      && KeyOf(y.orders.holds[a].task) == KeyFor(y, id) && y.pending[id].account == a
  }

  predicate MailOk(y: Sys, id: string)
    requires id in y.orders.replies
  {
    && id in y.pending && y.pending[id].claims == 1
    && (id in y.handlers ==> y.handlers[id])
    && (y.orders.replies[id].RowReply? ==>
          var k := y.orders.replies[id].key;
          var report := y.orders.replies[id].report;
          && k == KeyFor(y, id) && k in y.orders.rows
          && (Terminal(report.status) ==> y.orders.rows[k].report == report))
  }

  ghost predicate BaseInv(y: Sys) {
    && (forall id | id in y.pending :: RecordOk(y, id))
    && (forall id | id in y.handlers :: HandlerOk(y, id))
    && (forall a | a in y.orders.holds :: CallerOk(y, a))
    && (forall id | id in y.orders.replies :: MailOk(y, id))
  }

  // ---------- order steps ----------

  lemma OrderKeepsRecords(y: Sys, step: Step)
    requires Coherent(y.orders) && BaseInv(y) && Can(y, Order(step))
    ensures var y' := Do(y, Order(step));
            && (forall id | id in y'.pending :: RecordOk(y', id))
            && (forall id | id in y'.handlers :: HandlerOk(y', id))
  {
    var y' := Do(y, Order(step));
    RowsGrowStep(y.orders, step);
    forall id | id in y'.pending ensures RecordOk(y', id) {
      assert RecordOk(y, id);
      var key := KeyFor(y, id);
      assert key in y.orders.rows ==> RowGrows(y.orders.rows[key], y'.orders.rows[key]);
    }
    forall id | id in y'.handlers ensures HandlerOk(y', id) {
      assert HandlerOk(y, id);
      ServingKept(y.orders, step);
    }
  }

  lemma ServingKept(s: State, step: Step)
    requires Coherent(s) && Enabled(s, step) && s.serving && !step.Crash?
    ensures Apply(s, step).serving
  {
    if Actor(step).Some? {
      ActorIsLocal(s, step);
    }
  }

  lemma OrderKeepsMail(y: Sys, step: Step)
    requires Coherent(y.orders) && BaseInv(y) && Can(y, Order(step)) && !step.Crash?
    ensures var y' := Do(y, Order(step));
            forall id | id in y'.orders.replies :: MailOk(y', id)
  {
    var y' := Do(y, Order(step));
    var s, s' := y.orders, y'.orders;
    RowsGrowStep(s, step);
    RepliesOfStep(s, step);
    forall id | id in s'.replies ensures MailOk(y', id) {
      if id in s.replies && s'.replies[id] == s.replies[id] {
        assert MailOk(y, id);
        assert KeyFor(y, id) in s.rows ==> RowGrows(s.rows[KeyFor(y, id)], s'.rows[KeyFor(y, id)]);
      } else {
        var a := Actor(step).value;
        assert CallerOk(y, a);
        assert HandlerOk(y, id) && RecordOk(y, id);
      }
    }
  }

  lemma OrderKeepsCallers(y: Sys, step: Step)
    requires Coherent(y.orders) && BaseInv(y) && Can(y, Order(step)) && !step.Crash?
    ensures var y' := Do(y, Order(step));
            forall a | a in y'.orders.holds :: CallerOk(y', a)
  {
    var y' := Do(y, Order(step));
    var s, s' := y.orders, y'.orders;
    RepliesOfStep(s, step);
    forall a | a in s'.holds ensures CallerOk(y', a) {
      if s'.holds[a].caller.Some? {
        CallerKept(s, step, a);
        assert CallerOk(y, a);
        var id := s.holds[a].caller.value;
        assert Actor(step).Some? && Actor(step).value in s.holds ==> CallerOk(y, Actor(step).value);
      }
    }
  }

  lemma OrderKeepsBase(y: Sys, step: Step)
    requires Coherent(y.orders) && BaseInv(y) && Can(y, Order(step))
    ensures BaseInv(Do(y, Order(step)))
  {
    OrderKeepsRecords(y, step);
    if !step.Crash? {
      OrderKeepsMail(y, step);
      OrderKeepsCallers(y, step);
    }
  }

  // ---------- approval acts ----------

  /** An act that leaves the order side alone and changes one record keeps what the others rely on. */
  lemma RecordActKeepsBase(y: Sys, act: Act)
    requires Coherent(y.orders) && BaseInv(y) && Can(y, act)
    requires act.Raise? || act.Decline? || act.ApproveOnly? || act.Claim? || act.Recover?
    ensures BaseInv(Do(y, act))
  {
    var y' := Do(y, act);
    var changed := act.id;
    assert changed in y.pending ==> RecordOk(y, changed);
    forall id | id in y'.pending ensures RecordOk(y', id) {
      assert id in y.pending ==> RecordOk(y, id);
    }
    forall id | id in y'.handlers ensures HandlerOk(y', id) {
      assert id in y.handlers ==> HandlerOk(y, id);
    }
    forall a | a in y'.orders.holds ensures CallerOk(y', a) {
      assert CallerOk(y, a);
      assert changed in y.handlers ==> HandlerOk(y, changed);
    }
    forall id | id in y'.orders.replies ensures MailOk(y', id) {
      assert MailOk(y, id);
    }
  }

  lemma HandlerEndsKeepsBase(y: Sys, act: Act)
    requires Coherent(y.orders) && BaseInv(y) && Can(y, act)
    requires act.CallRaised? || act.Settled? || act.Vanish?
    ensures BaseInv(Do(y, act))
  {
    var y' := Do(y, act);
    assert HandlerOk(y, act.id) && RecordOk(y, act.id);
    assert act.Settled? ==> MailOk(y, act.id);
    forall id | id in y'.pending ensures RecordOk(y', id) {
      assert RecordOk(y, id);
    }
    forall id | id in y'.handlers ensures HandlerOk(y', id) {
      assert HandlerOk(y, id);
    }
    forall a | a in y'.orders.holds ensures CallerOk(y', a) {
      assert CallerOk(y, a);
    }
    forall id | id in y'.orders.replies ensures MailOk(y', id) {
      assert MailOk(y, id);
    }
  }

  lemma CallKeepsBase(y: Sys, act: Act)
    requires Coherent(y.orders) && BaseInv(y) && Can(y, act) && (act.Call? || act.CallAgain?)
    ensures BaseInv(Do(y, act))
  {
    var y' := Do(y, act);
    assert HandlerOk(y, act.id) && RecordOk(y, act.id);
    assert act.id in y.orders.replies ==> MailOk(y, act.id);
    forall id | id in y'.pending ensures RecordOk(y', id) {
      assert RecordOk(y, id);
    }
    forall id | id in y'.handlers ensures HandlerOk(y', id) {
      assert HandlerOk(y, id);
    }
    forall a | a in y'.orders.holds ensures CallerOk(y', a) {
      assert a in y.orders.holds ==> CallerOk(y, a);
    }
    forall id | id in y'.orders.replies ensures MailOk(y', id) {
      assert id in y.orders.replies ==> MailOk(y, id);
    }
  }

  lemma BaseStep(y: Sys, act: Act)
    requires Coherent(y.orders) && BaseInv(y) && Can(y, act)
    ensures BaseInv(Do(y, act))
  {
    match act
    case Order(step) => OrderKeepsBase(y, step);
    case Call(_, _) => CallKeepsBase(y, act);
    case CallAgain(_, _) => CallKeepsBase(y, act);
    case CallRaised(_, _) => HandlerEndsKeepsBase(y, act);
    case Settled(_, _) => HandlerEndsKeepsBase(y, act);
    case Vanish(_) => HandlerEndsKeepsBase(y, act);
    case _ => RecordActKeepsBase(y, act);
  }

  lemma {:induction false} BaseRun(y: Sys, acts: seq<Act>)
    requires Possible(y, acts) && BaseInv(y)
    ensures BaseInv(After(y, acts))
    decreases |acts|
  {
    if acts != [] {
      BaseStep(y, acts[0]);
      BaseRun(Do(y, acts[0]), acts[1..]);
    }
  }

  /** Over all interleavings and restarts: a record is claimed at most once, `executed` means its order is FILLED or
      paper, and an execution id is stored only with `executed`. */
  lemma ApprovalSafe(acts: seq<Act>, id: string)
    requires Possible(START, acts) && id in After(START, acts).pending
    ensures var y := After(START, acts); var p := y.pending[id];
            && p.claims <= 1
            && (p.stage.Executed? ==>
                  && Key(p.account, "pending:" + id) in y.orders.rows
                  && y.orders.rows[Key(p.account, "pending:" + id)].report.status in {Status.Filled, Paper})
            && (p.executedId.Some? ==> p.stage.Executed?)
  {
    BaseRun(START, acts);
    assert RecordOk(After(START, acts), id);
  }

  // ---------- final stages ----------

  predicate Final(stage: Stage) {
    stage.Executed? || stage.Declined? || stage.ReconcileRequired?
  }

  lemma FinalStep(y: Sys, act: Act, id: string)
    requires Coherent(y.orders) && BaseInv(y) && Can(y, act)
    requires id in y.pending && Final(y.pending[id].stage)
    ensures id in Do(y, act).pending && Do(y, act).pending[id] == y.pending[id]
  {
    assert id in y.handlers ==> HandlerOk(y, id);
  }

  /** `executed`, `rejected` and `reconcile_required` are never left, and the record never changes again. */
  lemma {:induction false} FinalRun(y: Sys, acts: seq<Act>, id: string)
    requires BaseInv(y) && Possible(y, acts)
    requires id in y.pending && y.pending[id].stage in {Executed, Stage.Declined, ReconcileRequired}
    ensures id in After(y, acts).pending && After(y, acts).pending[id] == y.pending[id]
    decreases |acts|
  {
    if acts != [] {
      FinalStep(y, acts[0], id);
      BaseStep(y, acts[0]);
      FinalRun(Do(y, acts[0]), acts[1..], id);
    }
  }

  // ---------- rejected means nothing is open: exactly when ----------

  /** The keys the approval path uses. */
  predicate ReservedKey(key: Key) {
    PENDING_PREFIX <= key.idem
  }

  function IdOf(key: Key): string
    requires ReservedKey(key)
  {
    key.idem[|PENDING_PREFIX|..]
  }

  lemma KeyIsReserved(y: Sys, id: string)
    requires id in y.pending
    ensures ReservedKey(KeyFor(y, id)) && IdOf(KeyFor(y, id)) == id
  {
  }

  /** The claim: a record rejected after its claim has no order that is NEW, PARTIALLY_FILLED or UNKNOWN. */
  predicate RejectedQuiet(y: Sys, id: string)
    requires id in y.pending
  {
    var key := KeyFor(y, id);
    (y.pending[id].stage.Declined? && y.pending[id].claims == 1 && key in y.orders.rows)
    ==> Terminal(y.orders.rows[key].report.status)
  }

  ghost predicate AllQuiet(y: Sys) {
    forall id | id in y.pending :: RejectedQuiet(y, id)
  }

  /** The first failing family: a real order recorded under the key of a record already rejected after its claim. */
  predicate RecordsOverRejection(y: Sys, step: Step) {
    && step.Prepare? && step.prep.Insert? && step.account in y.orders.holds && y.orders.holds[step.account].task.Cleared?
    && var d := y.orders.holds[step.account].task.draft;
       && d.isReal && ReservedKey(d.key)
       && var id := IdOf(d.key);
          && id in y.pending && y.pending[id].account == d.key.account
          && y.pending[id].stage.Declined? && y.pending[id].claims == 1
  }

  /** The second: a handler files a rejection while the row under the record's own key is unsettled. */
  predicate RejectsOverOpenRow(y: Sys, act: Act) {
    && (act.CallRaised? || act.Settled?)
    && AtStage(y, act.id, Executing) && y.pending[act.id].claims == 1
    && KeyFor(y, act.id) in y.orders.rows && Uncertain(y.orders.rows[KeyFor(y, act.id)].report.status)
    && if act.CallRaised? then act.code.Some? && AfterError(act.code.value).Declined?
       else act.id in y.orders.replies && AfterReply(y.orders.replies[act.id]).Declined?
  }

  predicate Breaks(y: Sys, act: Act) {
    (act.Order? && RecordsOverRejection(y, act.step)) || RejectsOverOpenRow(y, act)
  }

  lemma OrderBreaksExactly(y: Sys, step: Step)
    requires Coherent(y.orders) && Can(y, Order(step)) && AllQuiet(y)
    ensures AllQuiet(Do(y, Order(step))) <==> !RecordsOverRejection(y, step)
  {
    var y' := Do(y, Order(step));
    RowsGrowStep(y.orders, step);
    if RecordsOverRejection(y, step) {
      var d := y.orders.holds[step.account].task.draft;
      var id := IdOf(d.key);
      assert PENDING_PREFIX + id == d.key.idem;
      assert KeyFor(y', id) == d.key;
      assert !RejectedQuiet(y', id);
    } else {
      forall id | id in y'.pending ensures RejectedQuiet(y', id) {
        var key := KeyFor(y, id);
        KeyIsReserved(y, id);
        assert RejectedQuiet(y, id);
        if key in y'.orders.rows && key !in y.orders.rows {
          NewRowIsInserted(y.orders, step, key);
        }
        assert key in y.orders.rows ==> RowGrows(y.orders.rows[key], y'.orders.rows[key]);
      }
    }
  }

  lemma FilingBreaksExactly(y: Sys, act: Act)
    requires Coherent(y.orders) && BaseInv(y) && Can(y, act) && AllQuiet(y) && (act.CallRaised? || act.Settled?)
    ensures AllQuiet(Do(y, act)) <==> !RejectsOverOpenRow(y, act)
  {
    var y' := Do(y, act);
    assert RecordOk(y, act.id) && HandlerOk(y, act.id);
    assert y'.orders.rows == y.orders.rows;
    assert RejectedQuiet(y', act.id) <==> !RejectsOverOpenRow(y, act);
    forall id | id in y'.pending && id != act.id ensures RejectedQuiet(y', id) {
      assert RejectedQuiet(y, id);
    }
  }

  /** The other acts change no row, and reject nothing that was claimed over an unsettled row. */
  lemma OthersKeepQuiet(y: Sys, act: Act)
    requires Coherent(y.orders) && BaseInv(y) && Can(y, act) && AllQuiet(y)
    requires !act.Order? && !act.CallRaised? && !act.Settled?
    ensures AllQuiet(Do(y, act))
  {
    var y' := Do(y, act);
    forall id | id in y'.pending ensures RejectedQuiet(y', id) {
      assert id in y.pending ==> RejectedQuiet(y, id) && RecordOk(y, id);
    }
  }

  /** An act breaks the claim exactly when it is of one of the two families. */
  lemma RejectionBrokenExactly(y: Sys, act: Act)
    requires Coherent(y.orders) && BaseInv(y) && Can(y, act) && AllQuiet(y)
    ensures AllQuiet(Do(y, act)) <==> !Breaks(y, act)
  {
    if act.Order? {
      OrderBreaksExactly(y, act.step);
    } else if act.CallRaised? || act.Settled? {
      FilingBreaksExactly(y, act);
    } else {
      OthersKeepQuiet(y, act);
    }
  }

  /** No act of the run is of the failing families. */
  ghost predicate NeverBreaks(y: Sys, acts: seq<Act>)
    requires Possible(y, acts)
    decreases |acts|
  {
    acts == [] || (!Breaks(y, acts[0]) && NeverBreaks(Do(y, acts[0]), acts[1..]))
  }

  /** The claim holds after every act of the run. */
  ghost predicate AlwaysQuiet(y: Sys, acts: seq<Act>)
    requires Possible(y, acts)
    decreases |acts|
  {
    AllQuiet(y) && (acts == [] || AlwaysQuiet(Do(y, acts[0]), acts[1..]))
  }

  lemma {:induction false} QuietExactly(y: Sys, acts: seq<Act>)
    requires Possible(y, acts) && BaseInv(y) && AllQuiet(y)
    ensures AlwaysQuiet(y, acts) <==> NeverBreaks(y, acts)
    decreases |acts|
  {
    if acts != [] {
      RejectionBrokenExactly(y, acts[0]);
      BaseStep(y, acts[0]);
      if AllQuiet(Do(y, acts[0])) {
        QuietExactly(Do(y, acts[0]), acts[1..]);
      }
    }
  }

  /** From the start, rejected records stay without an open order throughout a run if and only if the run never records
      an order over a rejection and never rejects over an unsettled row. */
  lemma AlwaysQuietExactly(acts: seq<Act>)
    requires Possible(START, acts)
    ensures AlwaysQuiet(START, acts) <==> NeverBreaks(START, acts)
  {
    QuietExactly(START, acts);
  }

  // ---------- a discipline that suffices: outsiders keep off the reserved keys ----------

  /** The call comes from outside and asks for a key of the approval path. */
  predicate Intrudes(act: Act) {
    act.Order? && act.step.Begin? && ReservedKey(act.step.draft.key)
  }

  /** Every row under a reserved key was written for a claimed record whose handler has already called. */
  predicate OwnRow(y: Sys, key: Key) {
    ReservedKey(key) ==>
      var id := IdOf(key);
      id in y.pending && y.pending[id].claims == 1 && !Claimed(y, id)
  }

  predicate OwnDraft(y: Sys, a: string)
    requires a in y.orders.holds
  {
    var t := y.orders.holds[a].task;
    (!HasRow(t) && ReservedKey(t.draft.key)) ==> y.orders.holds[a].caller.Some?
  }

  predicate RefusedEmpty(y: Sys, id: string)
    requires id in y.orders.replies
  {
    y.orders.replies[id].Refusal? ==> id in y.pending && KeyFor(y, id) !in y.orders.rows
  }

  ghost predicate QuietInv(y: Sys) {
    && AllQuiet(y)
    && (forall k | k in y.orders.rows :: OwnRow(y, k))
    && (forall a | a in y.orders.holds :: OwnDraft(y, a))
    && (forall id | id in y.orders.replies :: RefusedEmpty(y, id))
  }

  /** A lock without a row was taken by this very step, or stood on the same key for the same caller. */
  lemma DraftKept(s: State, step: Step, a: string)
    requires Coherent(s) && Enabled(s, step)
    requires a in Apply(s, step).holds && !HasRow(Apply(s, step).holds[a].task)
    ensures var h' := Apply(s, step).holds[a];
            || (step.Begin? && h' == Hold(step.caller, Drafted(step.draft)))
            || (step.BeginSell? && h' == Hold(None, Cleared(step.draft, KillSwitch)))
            || (a in s.holds && !HasRow(s.holds[a].task) && s.holds[a].caller == h'.caller
                && s.holds[a].task.draft.key == h'.task.draft.key)
  {
    if Actor(step) == Some(a) {
      match step
      case Prepare(_, p) => PrepKeepsCaller(s, a, p);
      case Settle(_, deal) =>
        assert TaskCoherent(s, a, s.holds[a].task);
        DealKeepsCaller(s, a, deal);
      case _ =>
    } else {
      HoldKept(s, step, a);
    }
  }

  /** Without intrusion, a new row under a reserved key belongs to a live handler that has called. */
  lemma NewReservedRow(y: Sys, step: Step, k: Key)
    requires Coherent(y.orders) && BaseInv(y) && QuietInv(y) && Can(y, Order(step))
    requires k in Apply(y.orders, step).rows && k !in y.orders.rows && ReservedKey(k)
    ensures var id := IdOf(k);
            && id in y.handlers && y.handlers[id] && HandlerOk(y, id)
            && k == KeyFor(y, id) && y.pending[id].claims == 1 && id !in y.orders.replies
  {
    NewRowIsInserted(y.orders, step, k);
    var a := step.account;
    assert OwnDraft(y, a) && CallerOk(y, a);
    var id := y.orders.holds[a].caller.value;
    KeyIsReserved(y, id);
    assert HandlerOk(y, id) && RecordOk(y, id);
  }

  /** Under the discipline no act is of the failing families. */
  lemma DisciplinedNeverBreaks(y: Sys, act: Act)
    requires Coherent(y.orders) && BaseInv(y) && QuietInv(y) && Can(y, act)
    ensures !Breaks(y, act)
  {
    if act.Order? {
      if RecordsOverRejection(y, act.step) {
        var a := act.step.account;
        assert OwnDraft(y, a) && CallerOk(y, a);
        var id := y.orders.holds[a].caller.value;
        KeyIsReserved(y, id);
      }
    } else if act.CallRaised? || act.Settled? {
      KeyIsReserved(y, act.id);
      assert KeyFor(y, act.id) in y.orders.rows ==> OwnRow(y, KeyFor(y, act.id));
      assert act.Settled? ==> MailOk(y, act.id) && RefusedEmpty(y, act.id);
    }
  }

  lemma OrderKeepsQuietRows(y: Sys, step: Step)
    requires Coherent(y.orders) && BaseInv(y) && QuietInv(y) && Can(y, Order(step))
    ensures var y' := Do(y, Order(step));
            forall k | k in y'.orders.rows :: OwnRow(y', k)
  {
    var y' := Do(y, Order(step));
    var s, s' := y.orders, y'.orders;
    RowsGrowStep(s, step);
    forall k | k in s'.rows ensures OwnRow(y', k) {
      if k in s.rows {
        assert OwnRow(y, k);
      } else if ReservedKey(k) {
        NewReservedRow(y, step, k);
      }
    }
  }

  lemma OrderKeepsQuietDrafts(y: Sys, step: Step)
    requires Coherent(y.orders) && BaseInv(y) && QuietInv(y) && Can(y, Order(step)) && !Intrudes(Order(step))
    ensures var y' := Do(y, Order(step));
            forall a | a in y'.orders.holds :: OwnDraft(y', a)
  {
    var y' := Do(y, Order(step));
    forall a | a in y'.orders.holds ensures OwnDraft(y', a) {
      if !HasRow(y'.orders.holds[a].task) {
        DraftKept(y.orders, step, a);
        assert a in y.orders.holds ==> OwnDraft(y, a);
        if step.BeginSell? {
          assert step.draft.key.idem[0] == 'c';
        }
      }
    }
  }

  lemma OrderKeepsQuietMail(y: Sys, step: Step)
    requires Coherent(y.orders) && BaseInv(y) && QuietInv(y) && Can(y, Order(step)) && !step.Crash?
    ensures var y' := Do(y, Order(step));
            forall id | id in y'.orders.replies :: RefusedEmpty(y', id)
  {
    var y' := Do(y, Order(step));
    var s, s' := y.orders, y'.orders;
    RepliesOfStep(s, step);
    forall id | id in s'.replies ensures RefusedEmpty(y', id) {
      if id in s.replies && s'.replies[id] == s.replies[id] {
        assert RefusedEmpty(y, id) && MailOk(y, id);
        KeyIsReserved(y, id);
        if KeyFor(y, id) in s'.rows && KeyFor(y, id) !in s.rows {
          NewReservedRow(y, step, KeyFor(y, id));
        }
      } else {
        var a := Actor(step).value;
        assert CallerOk(y, a) && TaskCoherent(s, a, s.holds[a].task);
        KeyIsReserved(y, id);
        assert KeyFor(y, id).idem[0] == 'p';
      }
    }
  }

  lemma ActKeepsOwnRows(y: Sys, act: Act)
    requires Coherent(y.orders) && BaseInv(y) && QuietInv(y) && Can(y, act) && !act.Order? && !act.CallAgain?
    ensures forall k | k in Do(y, act).orders.rows :: OwnRow(Do(y, act), k)
  {
    var y' := Do(y, act);
    assert act.id in y.pending ==> RecordOk(y, act.id);
    forall k | k in y'.orders.rows ensures OwnRow(y', k) {
      assert OwnRow(y, k);
    }
  }

  lemma ActKeepsDraftsAndMail(y: Sys, act: Act)
    requires Coherent(y.orders) && BaseInv(y) && QuietInv(y) && Can(y, act) && !act.Order? && !act.CallAgain?
    ensures forall a | a in Do(y, act).orders.holds :: OwnDraft(Do(y, act), a)
    ensures forall id | id in Do(y, act).orders.replies :: RefusedEmpty(Do(y, act), id)
  {
    var y' := Do(y, act);
    forall a | a in y'.orders.holds ensures OwnDraft(y', a) {
      assert a in y.orders.holds ==> OwnDraft(y, a);
    }
    forall id | id in y'.orders.replies ensures RefusedEmpty(y', id) {
      assert id in y.orders.replies ==> RefusedEmpty(y, id);
    }
  }

  /** Its own execution key is still free when a handler makes its first call. */
  lemma NoSecondCall(y: Sys, id: string, isReal: bool)
    requires Coherent(y.orders) && QuietInv(y)
    ensures !Can(y, CallAgain(id, isReal))
  {
    if id in y.pending {
      KeyIsReserved(y, id);
      assert KeyFor(y, id) in y.orders.rows ==> OwnRow(y, KeyFor(y, id));
    }
  }

  lemma QuietStep(y: Sys, act: Act)
    requires Coherent(y.orders) && BaseInv(y) && QuietInv(y) && Can(y, act) && !Intrudes(act)
    ensures QuietInv(Do(y, act))
  {
    RejectionBrokenExactly(y, act);
    DisciplinedNeverBreaks(y, act);
    if act.Order? {
      OrderKeepsQuietRows(y, act.step);
      OrderKeepsQuietDrafts(y, act.step);
      if !act.step.Crash? {
        OrderKeepsQuietMail(y, act.step);
      }
    } else if act.CallAgain? {
      NoSecondCall(y, act.id, act.isReal);
    } else {
      ActKeepsOwnRows(y, act);
      ActKeepsDraftsAndMail(y, act);
    }
  }

  ghost predicate NobodyIntrudes(acts: seq<Act>) {
    forall i | 0 <= i < |acts| :: !Intrudes(acts[i])
  }

  lemma {:induction false} QuietRun(y: Sys, acts: seq<Act>)
    requires Possible(y, acts) && BaseInv(y) && QuietInv(y) && NobodyIntrudes(acts)
    ensures QuietInv(After(y, acts)) && BaseInv(After(y, acts))
    decreases |acts|
  {
    if acts != [] {
      QuietStep(y, acts[0]);
      BaseStep(y, acts[0]);
      QuietRun(Do(y, acts[0]), acts[1..]);
    }
  }

  /** As long as no outside call asks for a reserved key, a record rejected after its claim has no order that is NEW,
      PARTIALLY_FILLED or UNKNOWN. */
  lemma RejectedMeansClosed(acts: seq<Act>, id: string)
    requires Possible(START, acts) && NobodyIntrudes(acts) && id in After(START, acts).pending
    ensures RejectedQuiet(After(START, acts), id)
  {
    QuietRun(START, acts);
  }
}
