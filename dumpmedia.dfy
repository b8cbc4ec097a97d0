/**
  `SignalBackup::dumpMedia`: for every attachment of the backup, look up its
  metadata row, decide whether to export it, name the file, pick (and
  register) its conversation directory, and make the name unique there.
*/
module DumpMedia {
  import opened Wrappers
  import opened Text
  import opened Filters
  import opened Metadata
  import opened FileNames
  import opened Conversations

  const MinimalQuery: string :=
    "SELECT part.mid, part.ct, part.file_name, part.display_order FROM part WHERE part._id == ? AND part.unique_id == ?"

  /** An attachment frame of the backup: its row id and its unique (attachment) id. */
  datatype Attachment = Attachment(rowId: int, uniqueId: int)

  /**
    Everything dumpMedia asks of the database, the file system and its helper
    routines, given as values: the answers to the schema checks, the
    query engine, the date parser, the file-name sanitizer, the local-time
    formatter, the mimetype table, the message-type test and the directory
    and unique-name helpers.
  */
  datatype Env = Env(
    partTableUsable: bool,
    outputReady: bool,
    fullBackup: bool,
    fullQuery: string,
    exec: (string, int, int) -> Option<seq<Row>>,
    parseDate: string -> DateParse,
    sanitize: string -> string,
    formatDate: int -> string,
    extensionFor: string -> string,
    isOutgoing: int -> bool,
    isDir: string -> bool,
    createDir: string -> bool,
    makeUnique: (string, string) -> Option<string>)

  /** What became of one attachment. */
  datatype Outcome =
    | Deselected
    | UnexpectedRowCount(rows: nat)
    | DirectoryFailed(path: string)
    | NoUniqueName(dir: string, filename: string)
    | Saved(dir: string, filename: string, mtime: int)

  /** A failing query ends the whole export; anything else ends only this attachment. */
  datatype StepResult = Abort | Done(outcome: Outcome)

  datatype Placement = Placed(dir: string) | Failed(path: string)

  /** The minimal query, or the joined one when the backup is full. */
  function BaseQuery(env: Env): string
  {
    if env.fullBackup then env.fullQuery else MinimalQuery
  }

  /**
    The lookup query: the base query, then the thread filter and the date
    filter, the latter with its parenthesis closed whenever it was opened.
  */
  function Query(env: Env, daterangelist: seq<string>, threads: seq<int>): string
  {
    BaseQuery(env) + ThreadClause(threads) + DateClause(daterangelist, env.parseDate)
  }

  /** The lookup query with the date filter as the routine builds it. */
  function QueryAsWritten(env: Env, daterangelist: seq<string>, threads: seq<int>): string
  {
    BaseQuery(env) + ThreadClause(threads) + DateClauseAsWritten(daterangelist, env.parseDate)
  }

  /**
    The two queries agree except when some range is accepted and the last pair
    is rejected; then the routine's query lacks the final ')'.
  */
  lemma QueryAsWrittenAgreement(env: Env, daterangelist: seq<string>, threads: seq<int>)
    ensures var ps := Pairs(daterangelist);
      var unclosed := ps != [] && Accept(ps[|ps| - 1], env.parseDate).None? && Accepted(ps, env.parseDate) != [];
      (!unclosed ==> QueryAsWritten(env, daterangelist, threads) == Query(env, daterangelist, threads)) &&
      (unclosed ==> Query(env, daterangelist, threads) == QueryAsWritten(env, daterangelist, threads) + ")")
  {
    var ps := Pairs(daterangelist);
    var parse := env.parseDate;
    var head := BaseQuery(env) + ThreadClause(threads);
    if ps != [] && Accept(ps[|ps| - 1], parse).None? && Accepted(ps, parse) != [] {
      var d := Disjunction(Accepted(ps, parse));
      assert DateClauseAsWritten(daterangelist, parse) == d + "";
      assert d + "" == d;
      Associative(head, d, ")");
    } else {
      AsWrittenAgreesUnlessLastRejected(daterangelist, parse);
    }
  }

  /** A row is filed under a conversation when the backup is full and thread, name and type are set. */
  predicate InConversation(env: Env, row: Row)
  {
    env.fullBackup && row.threadId.Some? && row.chatPartner.Some? && row.msgBox.Some?
  }

  /** The name the attachment of `row` is saved under, before uniqueness. */
  function AttachmentName(env: Env, a: Attachment, row: Row): string
  {
    var datum := Datum(a.uniqueId, env.fullBackup, row.dateReceived);
    FileName(row.fileName, env.sanitize, DateString(env.formatDate, datum), row.displayOrder, env.extensionFor(row.ct))
  }

  /** Directory selection: the export directory itself, or the conversation's sent/received directory. */
  function Place(reg: Registry, env: Env, dir: string, row: Row): (res: (Registry, Placement))
    requires RegistryInvariant(reg)
    ensures RegistryInvariant(res.0) && Extends(reg, res.0)
  {
    if !InConversation(env, row) then (reg, Placed(dir))
    else
      var (reg', idx) := Assign(reg, row.threadId.value, env.sanitize(row.chatPartner.value));
      var convdir := dir + "/" + reg'.names[idx];
      if !env.isDir(convdir) && !env.createDir(convdir) then (reg', Failed(convdir))
      else
        var target := TargetDir(dir, reg'.names[idx], env.isOutgoing(row.msgBox.value));
        if !env.isDir(target) && !env.createDir(target) then (reg', Failed(target))
        else (reg', Placed(target))
  }

  /** One pass of the attachment loop, on the registry as it stands. */
  function Step(reg: Registry, env: Env, dir: string, daterangelist: seq<string>, threads: seq<int>, a: Attachment)
    : (res: (Registry, StepResult))
    requires RegistryInvariant(reg)
    ensures RegistryInvariant(res.0) && Extends(reg, res.0)
  {
    var results := env.exec(Query(env, daterangelist, threads), a.rowId, a.uniqueId);
    if results.None? then (reg, Abort)
    else
      var rows := results.value;
      match Decide(|rows|, FiltersActive(daterangelist, threads))
      case Skip => (reg, Done(Deselected))
      case ReportAndSkip => (reg, Done(UnexpectedRowCount(|rows|)))
      case Proceed =>
        var row := rows[0];
        var filename := AttachmentName(env, a, row);
        var (reg', placement) := Place(reg, env, dir, row);
        match placement
        case Failed(path) => (reg', Done(DirectoryFailed(path)))
        case Placed(target) =>
          match env.makeUnique(target, filename)
          case None => (reg', Done(NoUniqueName(target, filename)))
          case Some(unique) => (reg', Done(Saved(target, unique, Datum(a.uniqueId, env.fullBackup, row.dateReceived))))
  }

  /** The attachment loop over `atts`, from an empty registry, stopping at the first failed query. */
  function Run(env: Env, dir: string, daterangelist: seq<string>, threads: seq<int>, atts: seq<Attachment>)
    : (res: (Registry, seq<Outcome>, bool))
    ensures RegistryInvariant(res.0)
    ensures |res.1| <= |atts|
    ensures res.2 ==> |res.1| == |atts|
    decreases |atts|
  {
    if atts == [] then (EmptyRegistry, [], true)
    else
      var (reg, outcomes, ok) := Run(env, dir, daterangelist, threads, atts[..|atts| - 1]);
      if !ok then (reg, outcomes, false)
      else
        var (reg', step) := Step(reg, env, dir, daterangelist, threads, atts[|atts| - 1]);
        if step.Abort? then (reg', outcomes, false)
        else (reg', outcomes + [step.outcome], true)
  }

  /** The whole export: refused up front when the part table or the output directory is unusable. */
  function Export(env: Env, dir: string, daterangelist: seq<string>, threads: seq<int>, atts: seq<Attachment>)
    : (bool, seq<Outcome>)
  {
    if !env.partTableUsable || !env.outputReady then (false, [])
    else
      var (_, outcomes, ok) := Run(env, dir, daterangelist, threads, atts);
      (ok, outcomes)
  }

  // ---------------------------------------------------------------------------
  // The routine
  // ---------------------------------------------------------------------------

  /** The lookup query, built as the routine builds it: base, then thread filter, then date filter. */
  method BuildQuery(env: Env, daterangelist: seq<string>, threads: seq<int>) returns (query: string)
    ensures query == Query(env, daterangelist, threads)
  {
    query := BaseQuery(env);
    query := AppendThreadClause(query, threads);
    query := AppendDateClause(query, daterangelist, env.parseDate);
  }

  /** Chooses, registers and creates the directory the attachment of `row` goes to. */
  method PlaceAttachment(conversations: ConversationRegistry, env: Env, dir: string, row: Row)
    returns (placement: Placement)
    requires conversations.Valid()
    modifies conversations
    ensures conversations.Valid()
    ensures (conversations.Model(), placement) == Place(old(conversations.Model()), env, dir, row)
  {
    if !InConversation(env, row) {
      return Placed(dir);
    }
    var idx := conversations.DirectoryFor(row.threadId.value, env.sanitize(row.chatPartner.value));
    var convdir := dir + "/" + conversations.names[idx];
    if !env.isDir(convdir) {
      if !env.createDir(convdir) {
        return Failed(convdir);
      }
    }
    var targetdir := TargetDir(dir, conversations.names[idx], env.isOutgoing(row.msgBox.value));
    if !env.isDir(targetdir) {
      if !env.createDir(targetdir) {
        return Failed(targetdir);
      }
    }
    return Placed(targetdir);
  }

  /** Handles one attachment, growing `conversations` as needed. */
  method ProcessAttachment(conversations: ConversationRegistry, env: Env, dir: string,
                           daterangelist: seq<string>, threads: seq<int>, a: Attachment)
    returns (res: StepResult)
    requires conversations.Valid()
    modifies conversations
    ensures conversations.Valid()
    ensures (conversations.Model(), res) == Step(old(conversations.Model()), env, dir, daterangelist, threads, a)
  {
    var query := BuildQuery(env, daterangelist, threads);
    var results := env.exec(query, a.rowId, a.uniqueId);
    if results.None? {
      return Abort;
    }
    var rows := results.value;
    var decision := Decide(|rows|, FiltersActive(daterangelist, threads));
    if decision == Skip {
      return Done(Deselected);
    }
    if decision == ReportAndSkip {
      return Done(UnexpectedRowCount(|rows|));
    }

    var row := rows[0];
    var datum := Datum(a.uniqueId, env.fullBackup, row.dateReceived);
    var filename := FileName(row.fileName, env.sanitize, DateString(env.formatDate, datum),
                             row.displayOrder, env.extensionFor(row.ct));
    assert filename == AttachmentName(env, a, row);

    var placement := PlaceAttachment(conversations, env, dir, row);
    if placement.Failed? {
      return Done(DirectoryFailed(placement.path));
    }
    var unique := env.makeUnique(placement.dir, filename);
    if unique.None? {
      return Done(NoUniqueName(placement.dir, filename));
    }
    return Done(Saved(placement.dir, unique.value, datum));
  }

  /**
    Exports every attachment in turn with one registry for the whole run;
    `ok` is false when the export is refused or a query fails.
  */
  method ExportAll(env: Env, dir: string, daterangelist: seq<string>, threads: seq<int>, attachments: seq<Attachment>)
    returns (ok: bool, outcomes: seq<Outcome>)
    ensures (ok, outcomes) == Export(env, dir, daterangelist, threads, attachments)
  {
    if !env.partTableUsable {
      return false, [];
    }
    if !env.outputReady {
      return false, [];
    }
    var conversations := new ConversationRegistry();
    outcomes := [];
    var i := 0;
    while i < |attachments|
      invariant 0 <= i <= |attachments|
      invariant conversations.Valid()
      invariant Run(env, dir, daterangelist, threads, attachments[..i]) == (conversations.Model(), outcomes, true)
    {
      assert attachments[..i + 1][..i] == attachments[..i];
      var res := ProcessAttachment(conversations, env, dir, daterangelist, threads, attachments[i]);
      if res.Abort? {
        RunAbortPersists(env, dir, daterangelist, threads, attachments, i + 1);
        return false, outcomes;
      }
      outcomes := outcomes + [res.outcome];
      i := i + 1;
    }
    assert attachments[..i] == attachments;
    ok := true;
  }

  // ---------------------------------------------------------------------------
  // Properties of the loop
  // ---------------------------------------------------------------------------

  /** After a failed query nothing more is exported. */
  lemma {:induction false} RunAbortPersists(env: Env, dir: string, daterangelist: seq<string>, threads: seq<int>,
                                            atts: seq<Attachment>, n: nat)
    requires n <= |atts| && !Run(env, dir, daterangelist, threads, atts[..n]).2
    ensures !Run(env, dir, daterangelist, threads, atts).2
    ensures Run(env, dir, daterangelist, threads, atts).1 == Run(env, dir, daterangelist, threads, atts[..n]).1
    decreases |atts| - n
  {
    if n == |atts| {
      assert atts[..n] == atts;
    } else {
      var init := atts[..|atts| - 1];
      assert init[..n] == atts[..n];
      RunAbortPersists(env, dir, daterangelist, threads, init, n);
    }
  }

  /** Every prefix of a run is a run: its outcomes are a prefix, its registry grows into the final one. */
  lemma {:induction false} RunPrefix(env: Env, dir: string, daterangelist: seq<string>, threads: seq<int>,
                                     atts: seq<Attachment>, n: nat)
    requires n <= |atts|
    ensures var whole := Run(env, dir, daterangelist, threads, atts);
      var part := Run(env, dir, daterangelist, threads, atts[..n]);
      part.1 <= whole.1 && Extends(part.0, whole.0) && (whole.2 ==> part.2)
    decreases |atts| - n
  {
    if n == |atts| {
      assert atts[..n] == atts;
    } else {
      var init := atts[..|atts| - 1];
      assert init[..n] == atts[..n];
      RunPrefix(env, dir, daterangelist, threads, init, n);
    }
  }

  /** On a completed run, outcome `i` is what `Step` made of attachment `i` on the registry of the run so far. */
  lemma RunStepAt(env: Env, dir: string, daterangelist: seq<string>, threads: seq<int>, atts: seq<Attachment>, i: nat)
    requires i < |atts| && Run(env, dir, daterangelist, threads, atts).2
    ensures var before := Run(env, dir, daterangelist, threads, atts[..i]);
      var step := Step(before.0, env, dir, daterangelist, threads, atts[i]);
      step.1.Done? &&
      Run(env, dir, daterangelist, threads, atts).1[i] == step.1.outcome &&
      Run(env, dir, daterangelist, threads, atts[..i + 1]).0 == step.0
  {
    RunSnoc(env, dir, daterangelist, threads, atts, i);
    RunPrefix(env, dir, daterangelist, threads, atts, i + 1);
  }

  /**
    One more attachment: a completed run over the first `i + 1` attachments is
    the completed run over the first `i`, then a `Step` of attachment `i`.
  */
  lemma RunSnoc(env: Env, dir: string, daterangelist: seq<string>, threads: seq<int>, atts: seq<Attachment>, i: nat)
    requires i < |atts|
    ensures var before := Run(env, dir, daterangelist, threads, atts[..i]);
      var step := Step(before.0, env, dir, daterangelist, threads, atts[i]);
      Run(env, dir, daterangelist, threads, atts[..i + 1]).2 ==>
        before.2 && step.1.Done? &&
        Run(env, dir, daterangelist, threads, atts[..i + 1]) == (step.0, before.1 + [step.1.outcome], true)
  {
    var pre := atts[..i + 1];
    assert pre[..|pre| - 1] == atts[..i];
    assert pre[|pre| - 1] == atts[i];
  }

  /** A failed query ends the run; otherwise every attachment gets exactly one outcome, in order. */
  lemma RunCoversEveryAttachment(env: Env, dir: string, daterangelist: seq<string>, threads: seq<int>, atts: seq<Attachment>)
    ensures var (ok, outcomes) := Export(env, dir, daterangelist, threads, atts);
      ok ==> |outcomes| == |atts|
    ensures !env.partTableUsable || !env.outputReady ==> Export(env, dir, daterangelist, threads, atts) == (false, [])
  {
  }

  /**
    A lookup with no row under an active filter skips the attachment: no
    file, no registry change. Any other count but one is reported.
  */
  lemma StepRowCount(reg: Registry, env: Env, dir: string, daterangelist: seq<string>, threads: seq<int>,
                     a: Attachment, rows: seq<Row>)
    requires RegistryInvariant(reg)
    requires env.exec(Query(env, daterangelist, threads), a.rowId, a.uniqueId) == Some(rows) && |rows| != 1
    ensures var (reg', res) := Step(reg, env, dir, daterangelist, threads, a);
      reg' == reg &&
      (rows == [] && FiltersActive(daterangelist, threads) ==> res == Done(Deselected)) &&
      (rows != [] || !FiltersActive(daterangelist, threads) ==> res == Done(UnexpectedRowCount(|rows|)))
  {
  }

  /**
    Where a saved attachment of `row` sits, given the registry `reg'` after it:
    under the `sent` or `received` directory of its thread's registered name.
  */
  predicate SavedUnderThread(reg': Registry, env: Env, dir: string, row: Row, saved: Outcome)
    requires saved.Saved? && |reg'.threadIds| == |reg'.names| && InConversation(env, row)
  {
    row.threadId.value in reg'.threadIds &&
    saved.dir == TargetDir(dir, NameOf(reg', row.threadId.value), env.isOutgoing(row.msgBox.value))
  }

  /**
    Where a saved attachment goes: flat into the export directory without
    conversation data; otherwise into the `sent` or `received` directory of
    the name the registry holds for its thread. Its file's time is its datum.
  */
  lemma SavedPlacement(reg: Registry, env: Env, dir: string, daterangelist: seq<string>, threads: seq<int>,
                       a: Attachment, row: Row)
    requires RegistryInvariant(reg)
    requires env.exec(Query(env, daterangelist, threads), a.rowId, a.uniqueId) == Some([row])
    ensures Step(reg, env, dir, daterangelist, threads, a).1.Done? &&
            Step(reg, env, dir, daterangelist, threads, a).1.outcome.Saved? ==>
      var reg' := Step(reg, env, dir, daterangelist, threads, a).0;
      var saved := Step(reg, env, dir, daterangelist, threads, a).1.outcome;
      saved.mtime == Datum(a.uniqueId, env.fullBackup, row.dateReceived) &&
      Some(saved.filename) == env.makeUnique(saved.dir, AttachmentName(env, a, row)) &&
      (!InConversation(env, row) ==> saved.dir == dir && reg' == reg) &&
      (InConversation(env, row) ==> SavedUnderThread(reg', env, dir, row, saved))
  {
    if InConversation(env, row) {
      var tid := row.threadId.value;
      var (reg', idx) := Assign(reg, tid, env.sanitize(row.chatPartner.value));
      assert reg'.threadIds[idx] == tid;
      assert IndexOf(reg'.threadIds, tid) == idx;
    }
  }

  /** The row attachment `a` gets when its lookup returns exactly one. */
  predicate LooksUp(env: Env, daterangelist: seq<string>, threads: seq<int>, a: Attachment, row: Row)
  {
    env.exec(Query(env, daterangelist, threads), a.rowId, a.uniqueId) == Some([row])
  }

  /** Where attachment `i` of a completed run went, in terms of the final registry. */
  lemma SavedIntoFinalConversation(env: Env, dir: string, daterangelist: seq<string>, threads: seq<int>,
                                   atts: seq<Attachment>, i: nat, row: Row)
    requires i < |atts|
    requires LooksUp(env, daterangelist, threads, atts[i], row) && InConversation(env, row)
    ensures Run(env, dir, daterangelist, threads, atts).2 && Run(env, dir, daterangelist, threads, atts).1[i].Saved? ==>
      SavedUnderThread(Run(env, dir, daterangelist, threads, atts).0, env, dir, row,
                       Run(env, dir, daterangelist, threads, atts).1[i])
  {
    if Run(env, dir, daterangelist, threads, atts).2 && Run(env, dir, daterangelist, threads, atts).1[i].Saved? {
      SavedIntoFinalConversationAt(env, dir, daterangelist, threads, atts, i, row);
    }
  }

  lemma SavedIntoFinalConversationAt(env: Env, dir: string, daterangelist: seq<string>, threads: seq<int>,
                                     atts: seq<Attachment>, i: nat, row: Row)
    requires i < |atts| && Run(env, dir, daterangelist, threads, atts).2
    requires LooksUp(env, daterangelist, threads, atts[i], row) && InConversation(env, row)
    requires Run(env, dir, daterangelist, threads, atts).1[i].Saved?
    ensures SavedUnderThread(Run(env, dir, daterangelist, threads, atts).0, env, dir, row,
                             Run(env, dir, daterangelist, threads, atts).1[i])
  {
    var before := Run(env, dir, daterangelist, threads, atts[..i]);
    RunStepAt(env, dir, daterangelist, threads, atts, i);
    var step := Step(before.0, env, dir, daterangelist, threads, atts[i]);
    SavedPlacement(before.0, env, dir, daterangelist, threads, atts[i], row);
    RunPrefix(env, dir, daterangelist, threads, atts, i + 1);
    NameOfStable(step.0, Run(env, dir, daterangelist, threads, atts).0, row.threadId.value);
  }

  /**
    Within one run, attachments of the same thread and direction land in the
    same directory, and attachments of different threads never share one.
  */
  lemma ConversationDirectoriesAcrossRun(env: Env, dir: string, daterangelist: seq<string>, threads: seq<int>,
                                         atts: seq<Attachment>, i: nat, j: nat, rowI: Row, rowJ: Row)
    requires i < |atts| && j < |atts|
    ensures var (_, outcomes, ok) := Run(env, dir, daterangelist, threads, atts);
      LooksUp(env, daterangelist, threads, atts[i], rowI) && InConversation(env, rowI) &&
      LooksUp(env, daterangelist, threads, atts[j], rowJ) && InConversation(env, rowJ) &&
      ok && outcomes[i].Saved? && outcomes[j].Saved? ==>
      ((rowI.threadId == rowJ.threadId && env.isOutgoing(rowI.msgBox.value) == env.isOutgoing(rowJ.msgBox.value))
         ==> outcomes[i].dir == outcomes[j].dir) &&
      (rowI.threadId != rowJ.threadId ==> outcomes[i].dir != outcomes[j].dir)
  {
    var (final, outcomes, ok) := Run(env, dir, daterangelist, threads, atts);
    if !LooksUp(env, daterangelist, threads, atts[i], rowI) || !InConversation(env, rowI) ||
       !LooksUp(env, daterangelist, threads, atts[j], rowJ) || !InConversation(env, rowJ) ||
       !ok || !outcomes[i].Saved? || !outcomes[j].Saved? {
      return;
    }
    SavedIntoFinalConversation(env, dir, daterangelist, threads, atts, i, rowI);
    SavedIntoFinalConversation(env, dir, daterangelist, threads, atts, j, rowJ);
    if rowI.threadId != rowJ.threadId {
      DistinctThreadsDistinctDirs(final, dir, rowI.threadId.value, env.isOutgoing(rowI.msgBox.value),
                                  rowJ.threadId.value, env.isOutgoing(rowJ.msgBox.value));
    }
  }
}
