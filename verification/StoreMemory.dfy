/** The pipeline, the writer/flusher handshake, the memtables and the logs keep their invariants. */
module StoreMemory {
  import opened Bytes
  import opened Entries
  import opened Records
  import opened StoreModel
  import opened StoreInvariant

  /** The invariants about everything but the tables on disk and the readers. */
  ghost predicate MemorySideInv(s: State) {
    && WellFormed(s)
    && PipelineInv(s.p, s.w)
    && HandshakeInv(s.h, s.w, s.f)
    && MemoryInv(s.p.history, s.p.inserted, s.m, s.h, s.w, s.f)
    && LogInv(s.p.writes, s.p.inserted, s.m, s.h, s.w, s.f)
  }

  lemma Later(ws: seq<Write>, more: seq<Write>, lo: nat, hi: nat)
    requires lo <= hi <= |ws|
    ensures (ws + more)[lo..hi] == ws[lo..hi]
  {
  }

  lemma OneMore<T>(ws: seq<T>, lo: nat, n: nat)
    requires lo <= n < |ws|
    ensures ws[lo..n + 1] == ws[lo..n] + [ws[n]]
  {
  }

  lemma ClientKeepsMemory(s: State, step: ClientStep)
    requires MemorySideInv(s) && ClientEnabled(s, step)
    ensures MemorySideInv(ClientApply(s, step))
  {
    if step.Reserve? {
      Later(s.p.writes, [step.write], s.m.frozenHi, Logged(s.p.inserted, s.w));
      Later(s.p.writes, [step.write], s.m.frozenLo, s.m.frozenHi);
    }
  }

  lemma WriterKeepsPipeline(s: State, step: WriterStep)
    requires WellFormed(s) && PipelineInv(s.p, s.w) && WriterEnabled(s, step)
    ensures var t := WriterApply(s, step); PipelineInv(t.p, t.w)
  {
    hide HandshakeInv;
    if step == InsertMemtable {
      HistoryGrows(s.p, Insertion(s.m.tables[s.m.active], s.p.writes[s.p.inserted]));
    } else {
      assert WriterApply(s, step).p.history == s.p.history && WriterApply(s, step).p.writes == s.p.writes;
    }
  }

  lemma HistoryGrows(p: Pipeline, e: Event)
    requires HistoryOk(p) && p.inserted < |p.writes|
    requires e == Performed(p.writes[p.inserted]) || (e == Lost && p.writes[p.inserted].key == [])
    ensures HistoryOk(p.(inserted := p.inserted + 1, history := p.history + [e]))
  {
  }

  lemma WriterKeepsHandshake(s: State, step: WriterStep)
    requires WellFormed(s) && HandshakeInv(s.h, s.w, s.f) && WriterEnabled(s, step)
    ensures var t := WriterApply(s, step); HandshakeInv(t.h, t.w, t.f)
  {
  }

  lemma AppendExtendsLog(ws: seq<Write>, lo: nat, n: nat, log: seq<byte>)
    requires lo <= n < |ws| && log == EncodeAll(ws[lo..n])
    ensures log + Encode(ws[n]) == EncodeAll(ws[lo..n + 1])
  {
    OneMore(ws, lo, n);
    EncodeAllSnoc(ws[lo..n], ws[n]);
  }

  lemma TablesInsert(es: seq<Event>, e: Event, tables: seq<Table>, active: nat, lo: nat, hi: nat, holding: bool)
    requires TablesOk(es, |es|, tables, active, lo, hi, holding)
    ensures TablesOk(es + [e], |es| + 1, tables[active := After(tables[active], e)], active, lo, hi, holding)
  {
    assert (es + [e])[hi..|es| + 1] == es[hi..|es|] + [e] && (es + [e])[lo..hi] == es[lo..hi];
    OutcomeSnoc(es[hi..|es|], e);
  }

  lemma TablesSwap(ws: seq<Event>, n: nat, tables: seq<Table>, active: nat, lo: nat, hi: nat)
    requires TablesOk(ws, n, tables, active, lo, hi, false)
    ensures TablesOk(ws, n, tables, 1 - active, hi, n, true)
  {
  }

  lemma LogsAppend(ws: seq<Write>, n: nat, logs: seq<seq<byte>>, active: nat, lo: nat, hi: nat, held: bool)
    requires LogsOk(ws, n, logs, active, lo, hi, held) && n < |ws|
    ensures LogsOk(ws, n + 1, logs[active := logs[active] + Encode(ws[n])], active, lo, hi, held)
  {
    AppendExtendsLog(ws, hi, n, logs[active]);
  }

  lemma LogsSwap(ws: seq<Write>, n: nat, logs: seq<seq<byte>>, active: nat, lo: nat, hi: nat)
    requires LogsOk(ws, n, logs, active, lo, hi, false)
    ensures LogsOk(ws, n, logs, 1 - active, hi, n, true)
  {
  }

  lemma LogsOpen(ws: seq<Write>, n: nat, logs: seq<seq<byte>>, active: nat, lo: nat, hi: nat, held: bool)
    requires LogsOk(ws, n, logs, active, lo, hi, held) && n == hi
    ensures logs[active] == [] && logs[active := []] == logs
  {
  }

  ghost predicate WriterSide(s: State) {
    && WellFormed(s)
    && PipelineInv(s.p, s.w)
    && HandshakeInv(s.h, s.w, s.f)
    && PhaseOk(s.p.inserted, s.m, s.h, s.w, s.f)
  }

  lemma WriterKeepsPhase(s: State, step: WriterStep)
    requires WriterSide(s) && s.m.frozenHi <= s.p.inserted && WriterEnabled(s, step)
    ensures var t := WriterApply(s, step);
            PhaseOk(t.p.inserted, t.m, t.h, t.w, t.f)
  {
  }

  lemma OtherStepsKeepTables(s: State, step: WriterStep)
    requires WriterSide(s) && WriterEnabled(s, step) && step != InsertMemtable && step != Swap
    ensures var t := WriterApply(s, step);
            && t.p.history == s.p.history && t.p.inserted == s.p.inserted && t.m.tables == s.m.tables
            && t.m.active == s.m.active && t.m.frozenLo == s.m.frozenLo && t.m.frozenHi == s.m.frozenHi
            && Holding(t.h, t.f) == Holding(s.h, s.f)
  {
  }

  lemma WriterKeepsTables(s: State, step: WriterStep)
    requires WriterSide(s) && WriterEnabled(s, step)
    requires TablesOk(s.p.history, s.p.inserted, s.m.tables, s.m.active, s.m.frozenLo, s.m.frozenHi, Holding(s.h, s.f))
    ensures var t := WriterApply(s, step);
            TablesOk(t.p.history, t.p.inserted, t.m.tables, t.m.active, t.m.frozenLo, t.m.frozenHi, Holding(t.h, t.f))
  {
    hide Outcome, TablesOk;
    if step == InsertMemtable {
      TablesInsert(s.p.history, Insertion(s.m.tables[s.m.active], s.p.writes[s.p.inserted]), s.m.tables, s.m.active, s.m.frozenLo, s.m.frozenHi, Holding(s.h, s.f));
    } else if step == Swap {
      TablesSwap(s.p.history, s.p.inserted, s.m.tables, s.m.active, s.m.frozenLo, s.m.frozenHi);
    } else {
      OtherStepsKeepTables(s, step);
    }
  }

  lemma WriterKeepsMemory(s: State, step: WriterStep)
    requires MemorySideInv(s) && WriterEnabled(s, step)
    ensures var t := WriterApply(s, step); MemoryInv(t.p.history, t.p.inserted, t.m, t.h, t.w, t.f)
  {
    WriterKeepsPhase(s, step);
    WriterKeepsTables(s, step);
  }

  lemma AppendKeepsLogs(s: State)
    requires WriterSide(s) && WriterEnabled(s, AppendLog)
    requires LogInv(s.p.writes, s.p.inserted, s.m, s.h, s.w, s.f)
    ensures var t := WriterApply(s, AppendLog); LogInv(t.p.writes, t.p.inserted, t.m, t.h, t.w, t.f)
  {
    hide EncodeAll, LogsOk, HandshakeInv, PhaseOk, HistoryOk;
    LogsAppend(s.p.writes, s.p.inserted, s.m.logs, s.m.active, s.m.frozenLo, s.m.frozenHi, s.h.inactiveFlushing && s.f != Unsetting);
  }

  lemma SwapKeepsLogs(s: State, step: WriterStep)
    requires WriterSide(s) && WriterEnabled(s, step) && (step == Swap || step == OpenLog)
    requires LogInv(s.p.writes, s.p.inserted, s.m, s.h, s.w, s.f)
    ensures var t := WriterApply(s, step); LogInv(t.p.writes, t.p.inserted, t.m, t.h, t.w, t.f)
  {
    hide EncodeAll;
    if step == Swap {
      LogsSwap(s.p.writes, s.p.inserted, s.m.logs, s.m.active, s.m.frozenLo, s.m.frozenHi);
    } else {
      LogsOpen(s.p.writes, s.p.inserted, s.m.logs, s.m.active, s.m.frozenLo, s.m.frozenHi, s.h.inactiveFlushing && s.f != Unsetting);
    }
  }

  lemma OthersKeepLogs(s: State, step: WriterStep)
    requires WriterSide(s) && WriterEnabled(s, step) && step != AppendLog && step != Swap && step != OpenLog
    requires LogInv(s.p.writes, s.p.inserted, s.m, s.h, s.w, s.f)
    ensures var t := WriterApply(s, step); LogInv(t.p.writes, t.p.inserted, t.m, t.h, t.w, t.f)
  {
    var t := WriterApply(s, step);
    assert t.m.logs == s.m.logs && Logged(t.p.inserted, t.w) == Logged(s.p.inserted, s.w);
  }

  lemma WriterKeepsLog(s: State, step: WriterStep)
    requires MemorySideInv(s) && WriterEnabled(s, step)
    ensures var t := WriterApply(s, step); LogInv(t.p.writes, t.p.inserted, t.m, t.h, t.w, t.f)
  {
    if step == AppendLog { AppendKeepsLogs(s); }
    else if step == Swap || step == OpenLog { SwapKeepsLogs(s, step); }
    else { OthersKeepLogs(s, step); }
  }

  lemma FlusherKeepsHandshake(s: State, step: FlusherStep)
    requires MemorySideInv(s) && FlusherEnabled(s, step)
    ensures var t := FlusherApply(s, step); PipelineInv(t.p, t.w) && HandshakeInv(t.h, t.w, t.f)
  {
  }

  lemma ClearKeepsMemory(s: State, step: FlusherStep)
    requires MemorySideInv(s) && FlusherEnabled(s, step)
    requires step == ClearMemtable || step == ClearLog
    ensures var t := FlusherApply(s, step); MemoryInv(t.p.history, t.p.inserted, t.m, t.h, t.w, t.f)
  {
  }

  lemma FlushKeepsMemory(s: State, step: FlusherStep)
    requires MemorySideInv(s) && FlusherEnabled(s, step)
    requires step != ClearMemtable && step != ClearLog
    ensures var t := FlusherApply(s, step); MemoryInv(t.p.history, t.p.inserted, t.m, t.h, t.w, t.f)
  {
  }

  lemma FlusherKeepsMemory(s: State, step: FlusherStep)
    requires MemorySideInv(s) && FlusherEnabled(s, step)
    ensures var t := FlusherApply(s, step); MemoryInv(t.p.history, t.p.inserted, t.m, t.h, t.w, t.f)
  {
    if step == ClearMemtable || step == ClearLog {
      ClearKeepsMemory(s, step);
    } else {
      FlushKeepsMemory(s, step);
    }
  }

  lemma ClearKeepsLog(s: State, step: FlusherStep)
    requires MemorySideInv(s) && FlusherEnabled(s, step)
    requires step == ClearMemtable || step == ClearLog
    ensures var t := FlusherApply(s, step); LogInv(t.p.writes, t.p.inserted, t.m, t.h, t.w, t.f)
  {
  }

  lemma FlushKeepsLog(s: State, step: FlusherStep)
    requires MemorySideInv(s) && FlusherEnabled(s, step)
    requires step != ClearMemtable && step != ClearLog
    ensures var t := FlusherApply(s, step); LogInv(t.p.writes, t.p.inserted, t.m, t.h, t.w, t.f)
  {
  }

  lemma FlusherKeepsLog(s: State, step: FlusherStep)
    requires MemorySideInv(s) && FlusherEnabled(s, step)
    ensures var t := FlusherApply(s, step); LogInv(t.p.writes, t.p.inserted, t.m, t.h, t.w, t.f)
  {
    if step == ClearMemtable || step == ClearLog {
      ClearKeepsLog(s, step);
    } else {
      FlushKeepsLog(s, step);
    }
  }

  lemma MemorySideKept(s: State, step: Step)
    requires MemorySideInv(s) && Enabled(s, step)
    ensures MemorySideInv(Apply(s, step))
  {
    match step {
      case Client(x) => ClientKeepsMemory(s, x);
      case Writer(x) => WriterKeepsPipeline(s, x); WriterKeepsHandshake(s, x); WriterKeepsMemory(s, x); WriterKeepsLog(s, x);
      case Flusher(x) => FlusherKeepsHandshake(s, x); FlusherKeepsMemory(s, x); FlusherKeepsLog(s, x);
      case Compactor(i, x) =>
    }
  }
}
