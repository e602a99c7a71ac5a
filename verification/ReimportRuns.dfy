/** Any number of re-imports, committed or rolled back, one after another. */
module ReimportRuns {
  import opened Importer
  import opened Reimport
  import opened ReimportProofs
  import opened ReimportMerge
  import opened ReimportTwice

  /** The session after one attempt: the committed import, or the store as it was. */
  function Attempt(s: Session, b: SyncBundle): Session {
    match SyncSpec(s, b)
    case Raise(_) => s
    case Ok(t) => t
  }

  function Attempts(s: Session, bs: seq<SyncBundle>): Session {
    if bs == [] then s else Attempt(Attempts(s, bs[..|bs| - 1]), bs[|bs| - 1])
  }

  /** What a run of re-imports never changes or undoes. */
  ghost predicate Follows(s: Session, r: Session) {
    && ValidSession(r)
    && Foreign(EnsureDefaultPolicy(r).db) == Foreign(EnsureDefaultPolicy(s).db)
    && EnsureDefaultPolicy(s).nextId <= EnsureDefaultPolicy(r).nextId
    && (ForeignRouteOnImport(r.db) ==> ForeignRouteOnImport(s.db))
  }

  lemma AttemptFollows(s: Session, r: Session, b: SyncBundle)
    requires Follows(s, r)
    ensures Follows(s, Attempt(r, b))
  {
    hide ValidSession, SyncSpec, EnsureDefaultPolicy, Foreign, ForeignRouteOnImport, Merge;
    if SyncSpec(r, b).Ok? {
      SyncExactly(r, b);
      SyncKeepsValid(r, b);
      ForeignUntouched(r, b);
      PolicyStays(r, b);
    }
  }

  /** After any run the store is valid and the foreign rows are those it started with. */
  lemma {:induction false} RunsKeepForeign(s: Session, bs: seq<SyncBundle>)
    requires ValidSession(s)
    ensures Follows(s, Attempts(s, bs))
  {
    hide Attempt, Follows;
    if bs == [] {
      StartFollows(s);
    } else {
      RunsKeepForeign(s, bs[..|bs| - 1]);
      AttemptFollows(s, Attempts(s, bs[..|bs| - 1]), bs[|bs| - 1]);
    }
  }

  lemma StartFollows(s: Session)
    requires ValidSession(s)
    ensures Follows(s, s)
  {
    hide ValidSession, EnsureDefaultPolicy, Foreign, ForeignRouteOnImport;
  }

  /**
   What was imported before does not matter: a bundle that commits now commits after any run, and leaves
   the same store up to ids.
   */
  lemma HistoryIrrelevant(s: Session, bs: seq<SyncBundle>, b: SyncBundle)
    requires ValidSession(s) && SyncSpec(s, b).Ok?
    ensures var r := Attempts(s, bs);
            && SyncSpec(r, b).Ok?
            && View(SyncSpec(r, b).value.db) == View(SyncSpec(s, b).value.db)
  {
    hide ValidSession, SyncSpec, EnsureDefaultPolicy, Foreign, ForeignRouteOnImport, Merge, View, Loadable, Attempts,
         Settled;
    RunsKeepForeign(s, bs);
    var r := Attempts(s, bs);
    SyncExactly(s, b);
    SyncExactly(r, b);
    PolicyApart(s, b);
    PolicyApart(r, b);
    var p, q := EnsureDefaultPolicy(s), EnsureDefaultPolicy(r);
    PolicyKeepsValid(s);
    ForeignIsSettled(p);
    ViewOfMerge(Foreign(p.db), p.nextId, q.nextId, b);
  }
}
