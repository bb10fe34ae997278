/** What a reload of the same config offers again on one side: exactly what failed, and what was left. */
module ReloadOffers {
  import opened Paths
  import opened Specs
  import opened Reload
  import opened ReloadChoices
  import opened ReloadKeeps
  import opened ReloadPlanned
  import opened ReloadSteps
  import opened ReloadAgain

  // ----- An entry that no item was for -----

  lemma OriginlessIsNoEntrys(v: View, x: Item, e: Entry)
    requires ValidView(v) && x in v.items && x.origin.None? && e in v.entries
    ensures v.Its(e) != Some(x)
  {
    ItsItem(v, e);
  }

  /** The change chosen for an entry. */
  lemma EntryChosen(v: View, plan: Carrying, e: Entry, p: Change) returns (c: Change)
    requires ForEntry(v, e, p) && Picked(v, plan.changes)
    ensures p in v.Changes() && c in plan.changes && SamePlan(p, c)
    ensures p.folder == v.folder && p.source == e.source && p.config == Some(e.spec)
    ensures p.task.Some? ==> TaskChange(plan.changes, p.task.value) == Some(c)
  {
    ChangesAre(v, p);
    EntryChangeIs(v, e, p);
    c := ChosenOf(v, plan, p);
    if c.task.Some? {
      TaskChangeIs(plan.changes, c);
    }
  }

  lemma OriginlessIsUntaken(v: View, adopt: seq<(nat, Source)>, x: Item)
    requires ValidView(v) && TakenFits(v, adopt) && x in v.items && x.origin.None?
    ensures Taken(adopt, x) == x
  {
    forall d | d in v.entries ensures v.Its(d) != Some(x) {
      OriginlessIsNoEntrys(v, x, d);
    }
  }

  lemma ExpectedHere(v: View, plan: Carrying, done: set<Source>, after: seq<Item>, x: Item)
    requires Aftermath(v, plan, done, after) && x in v.items && Expected(plan, x, done).Some?
    ensures Expected(plan, x, done).value in after
  {
  }

  lemma ExpectedIs(plan: Carrying, done: set<Source>, x: Item, c: Change)
    requires TaskChange(plan.changes, x.id) == Some(c) && Taken(plan.adopt, x) == x
    ensures Expected(plan, x, done) == if c.source in done then plan.fate(c, x) else Some(x)
  {
  }

  /** The runner's own item that an entry says, and the change chosen for it. */
  lemma WrittenChosen(v: View, plan: Carrying, e: Entry, p: Change, x: Item) returns (c: Change)
    requires ValidView(v) && Picked(v, plan.changes) && TakenFits(v, plan.adopt)
    requires ForEntry(v, e, p) && v.Its(e).None? && IsWritten(v.Sight(), e) && x == v.Sight().own[e.path]
    ensures x in v.items && x.path == e.path && Taken(plan.adopt, x) == x
    ensures c in plan.changes && c.kind == Written && c.source == e.source && c.task == Some(x.id)
    ensures TaskChange(plan.changes, x.id) == Some(c)
  {
    WrittenItem(v, e);
    OriginlessIsUntaken(v, plan.adopt, x);
    EntryChangeIs(v, e, p);
    c := EntryChosen(v, plan, e, p);
  }

  /** The runner's own item that an entry says is taken as the entry's when that is done, and else stays. */
  lemma WrittenStays(v: View, plan: Carrying, done: set<Source>, failed: set<Source>, after: seq<Item>, e: Entry, p: Change)
    requires Carried(v, plan, done, failed, after)
    requires ForEntry(v, e, p) && v.Its(e).None? && IsWritten(v.Sight(), e)
    ensures var x := v.Sight().own[e.path];
            && x in v.items && x.path == e.path
            && (e.source !in done ==> x in after)
            && (e.source in done ==> exists y | y in after :: y.origin == Some(e.source))
  {
    var x := v.Sight().own[e.path];
    var c := WrittenChosen(v, plan, e, p, x);
    FateOf(plan, c, x);
    WhenDone(plan, done, failed, c);
    ExpectedIs(plan, done, x, c);
    ExpectedHere(v, plan, done, after, x);
  }

  /** A new task or folder done is the entry's. */
  lemma NewIsMade(v: View, plan: Carrying, done: set<Source>, failed: set<Source>, after: seq<Item>, e: Entry, p: Change)
    requires Picked(v, plan.changes) && Aftermath(v, plan, done, after)
    requires ForEntry(v, e, p) && IsNew(p) && e.source in done
    ensures exists y | y in after :: y.origin == Some(e.source)
  {
    var c := EntryChosen(v, plan, e, p);
    MadeHere(v, plan, done, after, c);
  }

  lemma MadeHere(v: View, plan: Carrying, done: set<Source>, after: seq<Item>, c: Change)
    requires Aftermath(v, plan, done, after) && IsNewDone(plan, v.folder, done, c)
    ensures exists y | y in after :: y.origin == Some(c.source)
  {
    assert IsMade(after, c);
    var y :| y in after && IsMadeFrom(y, c);
    assert y.origin == Some(c.source);
  }

  /** With its change done, an entry that had no item has one. */
  lemma AgainDone(v: View, plan: Carrying, done: set<Source>, failed: set<Source>, after: seq<Item>, base: Base, e: Entry, p: Change)
    requires Afterwards(v, plan, done, failed, after, base)
    requires ForEntry(v, e, p) && v.Its(e).None? && e.source in done
    ensures var w := Again(v, base, after);
            w.Its(e).Some? && w.Its(e).value.origin == Some(e.source) && w.ChangesOf(e) == []
  {
    var w := Again(v, base, after);
    EntryChangeIs(v, e, p);
    var c := EntryChosen(v, plan, e, p);
    if IsWritten(v.Sight(), e) {
      WrittenStays(v, plan, done, failed, after, e, p);
    } else {
      NewIsMade(v, plan, done, failed, after, e, p);
    }
    var y :| y in after && y.origin == Some(e.source);
    ItsItem(w, e);
    WhenDone(plan, done, failed, c);
    ChosenBase(v, plan, failed, base, e, c);
    SettledAgain(w.Sight(), e, y);
  }

  /** With its change not done, an entry that had no item has none. */
  lemma AgainNone(v: View, plan: Carrying, done: set<Source>, failed: set<Source>, after: seq<Item>, base: Base, e: Entry)
    requires Afterwards(v, plan, done, failed, after, base)
    requires e in v.entries && v.Its(e).None? && e.source !in done
    ensures Again(v, base, after).Its(e).None?
  {
    var w := Again(v, base, after);
    if w.Its(e).Some? {
      ItsItem(w, e);
      var y := w.Its(e).value;
      if y.origin == Some(e.source) {
        AfterFrom(v, plan, done, failed, after, y, e);
      } else {
        var c := AfterGone(v, plan, done, failed, after, y);
        ItsItem(v, e);
      }
    }
  }

  /** An item of no entry at the path of an entry that had no item was there before. */
  lemma AfterOwn(v: View, plan: Carrying, done: set<Source>, failed: set<Source>, after: seq<Item>, y: Item, e: Entry)
    requires Carried(v, plan, done, failed, after) && OwnSide(v, plan.changes)
    requires e in v.entries && v.Its(e).None?
    requires y in after && y.origin.None? && y.path == e.path
    ensures y in v.items
  {
    assert Explained(v, plan, done, y);
    var x :| x in v.items && Expected(plan, x, done) == Some(y);
    var (own, taken) := (TaskChange(plan.changes, x.id), Taken(plan.adopt, x));
    forall d | d in v.entries ensures v.Its(d) != Some(x) {
      if v.Its(d) == Some(x) {
        ItsStays(v, plan, done, failed, after, d);
      }
    }
    assert taken == x;
    if own.Some? && own.value.source in done {
      WhoseChange(v, plan, x, own.value);
      FateOf(plan, own.value, x);
      WhenDone(plan, done, failed, own.value);
      ItsItem(v, e);
    }
  }

  /** The runner's own item that an entry says is there again exactly when it was and was not taken. */
  lemma AgainWritten(v: View, plan: Carrying, done: set<Source>, failed: set<Source>, after: seq<Item>, base: Base, e: Entry, p: Change)
    requires Afterwards(v, plan, done, failed, after, base)
    requires ForEntry(v, e, p) && v.Its(e).None? && e.source !in done
    ensures var w := Again(v, base, after);
            && IsWritten(w.Sight(), e) == IsWritten(v.Sight(), e)
            && (IsWritten(v.Sight(), e) ==> w.Sight().own[e.path] == v.Sight().own[e.path])
  {
    var w := Again(v, base, after);
    if IsWritten(v.Sight(), e) {
      WrittenStays(v, plan, done, failed, after, e, p);
      OwnHas(v.items, v.folder, v.Sight().own[e.path]);
      WrittenItem(w, e);
    } else if IsWritten(w.Sight(), e) {
      var y := w.Sight().own[e.path];
      WrittenItem(w, e);
      OwnHas(after, v.folder, y);
      AfterOwn(v, plan, done, failed, after, y, e);
      WrittenItem(v, e);
    }
  }

  /** A change offered again, as it was planned; what was removed here and left is in the base by now. */
  function Offer(p: Change, failed: set<Source>): Change {
    if p.kind == RemovedHere && p.source !in failed then p.(base := p.config) else p
  }

  lemma NewAgain(s: Sight, t: Sight, e: Entry, failed: set<Source>)
    requires s.folder == t.folder && IsWritten(t, e) == IsWritten(s, e)
    requires IsWritten(s, e) ==> t.own[e.path] == s.own[e.path]
    requires !IsWritten(s, e) ==>
               BaseAt(t.base, e.source) ==
               if e.source in failed || BaseAt(s.base, e.source).None? then BaseAt(s.base, e.source) else Some(e.spec)
    ensures NewChange(t, e) == Offer(NewChange(s, e), failed)
  {
  }

  /** A new or written entry's change is offered again exactly when it is not done. */
  lemma AgainNew(v: View, plan: Carrying, done: set<Source>, failed: set<Source>, after: seq<Item>, base: Base, e: Entry, p: Change)
    requires Afterwards(v, plan, done, failed, after, base)
    requires ForEntry(v, e, p) && v.Its(e).None?
    ensures Again(v, base, after).ChangesOf(e) == if e.source in done then [] else [Offer(p, failed)]
  {
    var w := Again(v, base, after);
    if e.source in done {
      AgainDone(v, plan, done, failed, after, base, e, p);
    } else {
      AgainNone(v, plan, done, failed, after, base, e);
      AgainWritten(v, plan, done, failed, after, base, e, p);
      EntryChangeIs(v, e, p);
      ChangesAre(v, p);
      var c := ChosenOf(v, plan, p);
      WhenDone(plan, done, failed, c);
      ChosenBase(v, plan, failed, base, e, c);
      NewAgain(v.Sight(), w.Sight(), e, failed);
    }
  }

  // ----- An item whose entry is gone -----

  /** Nothing is taken over again: every entry's item is from it. */
  lemma NothingAdopted(v: View, plan: Carrying, done: set<Source>, failed: set<Source>, after: seq<Item>, base: Base, e: Entry)
    requires Afterwards(v, plan, done, failed, after, base) && e in v.entries
    ensures var w := Again(v, base, after); w.Its(e).Some? ==> w.Its(e).value.origin == Some(e.source)
  {
    if v.Its(e).Some? {
      AgainItsItem(v, plan, done, failed, after, base, e);
    } else if e.source in done {
      assert ForEntry(v, e, NewChange(v.Sight(), e));
      AgainDone(v, plan, done, failed, after, base, e, NewChange(v.Sight(), e));
    } else {
      AgainNone(v, plan, done, failed, after, base, e);
    }
  }

  /** An item whose removal, or whose keeping, failed is there as it was. */
  lemma GoneStays(v: View, plan: Carrying, done: set<Source>, failed: set<Source>, after: seq<Item>, x: Item, q: Change)
    returns (c: Change)
    requires Carried(v, plan, done, failed, after)
    requires ForGone(v, x, q) && q.source in failed
    ensures x in after && c in plan.changes && SamePlan(q, c)
  {
    c := GoneChosen(v, plan, x, q);
    WhenDone(plan, done, failed, c);
    GoneIsUntaken(v, plan.adopt, x, q);
    ExpectedIs(plan, done, x, c);
    ExpectedHere(v, plan, done, after, x);
  }

  lemma GoneChosen(v: View, plan: Carrying, x: Item, q: Change) returns (c: Change)
    requires Picked(v, plan.changes) && ForGone(v, x, q)
    ensures c in plan.changes && SamePlan(q, c) && c.kind == Removed && TaskChange(plan.changes, x.id) == Some(c)
  {
    GoneChangeIs(v, x, q);
    ChangesAre(v, q);
    c := ChosenIsTaskChange(v, plan, q, x.id);
  }

  lemma GoneIsUntaken(v: View, adopt: seq<(nat, Source)>, x: Item, q: Change)
    requires ValidView(v) && TakenFits(v, adopt) && ForGone(v, x, q)
    ensures Taken(adopt, x) == x
  {
    AdoptsIts(v, x);
  }

  lemma NotAdoptedAgain(v: View, plan: Carrying, done: set<Source>, failed: set<Source>, after: seq<Item>, base: Base, x: Item)
    requires Afterwards(v, plan, done, failed, after, base) && x in after && Gone(x, v.InConfig())
    ensures x.id !in Again(v, base, after).Adopts()
  {
    var w := Again(v, base, after);
    AdoptsIts(w, x);
    if e :| e in w.entries && w.Its(e) == Some(x) {
      NothingAdopted(v, plan, done, failed, after, base, e);
    }
  }

  lemma GoneBase(v: View, plan: Carrying, failed: set<Source>, base: Base, c: Change)
    requires BaseFits(v, plan.changes, failed, base)
    requires c in plan.changes && c.folder == v.folder && c.kind == Removed && c.source in failed
    ensures BaseAt(base, c.source) == c.base
  {
  }

  lemma RemovedSame(s: Sight, t: Sight, x: Item)
    requires x.origin.Some? && s.folder == t.folder && BaseAt(s.base, x.origin.value) == BaseAt(t.base, x.origin.value)
    ensures RemovedChange(s, x) == RemovedChange(t, x)
    ensures RemovedChange(s, x).base == BaseAt(s.base, x.origin.value)
  {
  }

  /** An item whose entry is gone is offered for removal again exactly when its removal, or its keeping, failed. */
  lemma AgainGone(v: View, plan: Carrying, done: set<Source>, failed: set<Source>, after: seq<Item>, base: Base, x: Item, q: Change)
    requires Afterwards(v, plan, done, failed, after, base)
    ensures ForGone(Again(v, base, after), x, q) <==> ForGone(v, x, q) && q.source in failed
  {
    var w := Again(v, base, after);
    if ForGone(w, x, q) {
      var p := RemovedChange(v.Sight(), x);
      var c := AfterGone(v, plan, done, failed, after, x);
      GoneChangeIs(v, x, p);
      GoneBase(v, plan, failed, base, c);
      RemovedSame(v.Sight(), w.Sight(), x);
    }
    if ForGone(v, x, q) && q.source in failed {
      var c := GoneStays(v, plan, done, failed, after, x, q);
      GoneChangeIs(v, x, q);
      GoneBase(v, plan, failed, base, c);
      RemovedSame(v.Sight(), w.Sight(), x);
      NotAdoptedAgain(v, plan, done, failed, after, base, x);
    }
  }

  // ----- One side -----

  /** A change that is offered again: one that failed, or one that could be left for later and was. */
  predicate OfferedAgain(c: Change, failed: set<Source>) {
    c.source in failed || (!c.apply && (c.kind == Added || c.kind == RemovedHere || c.kind == Written))
  }

  /** Exactly the changes to offer again are, each as it was planned. */
  lemma SideAgain(v: View, plan: Carrying, done: set<Source>, failed: set<Source>, after: seq<Item>, base: Base, q: Change)
    requires Afterwards(v, plan, done, failed, after, base)
    ensures q in Again(v, base, after).Changes() <==>
            exists p, c | p in v.Changes() && c in plan.changes && SamePlan(p, c) && OfferedAgain(c, failed) :: q == Offer(p, failed)
  {
    if q in Again(v, base, after).Changes() {
      var p, c := Offered(v, plan, done, failed, after, base, q);
    }
    if p, c :| p in v.Changes() && c in plan.changes && SamePlan(p, c) && OfferedAgain(c, failed) && q == Offer(p, failed) {
      Offers(v, plan, done, failed, after, base, p, c);
    }
  }

  lemma Offered(v: View, plan: Carrying, done: set<Source>, failed: set<Source>, after: seq<Item>, base: Base, q: Change)
    returns (p: Change, c: Change)
    requires Afterwards(v, plan, done, failed, after, base) && q in Again(v, base, after).Changes()
    ensures p in v.Changes() && c in plan.changes && SamePlan(p, c) && OfferedAgain(c, failed) && q == Offer(p, failed)
  {
    var w := Again(v, base, after);
    ChangesAre(w, q);
    if e :| ForEntry(w, e, q) {
      if v.Its(e).Some? {
        p, c := ItsOffered(v, plan, done, failed, after, base, e, q);
      } else {
        p, c := NewOffered(v, plan, done, failed, after, base, e, q);
      }
    } else {
      var x :| ForGone(w, x, q);
      AgainGone(v, plan, done, failed, after, base, x, q);
      ChangesAre(v, q);
      c := GoneChosen(v, plan, x, q);
      p := q;
    }
  }

  /** An entry that a change is offered for again had one planned. */
  lemma ItsPlanned(v: View, plan: Carrying, done: set<Source>, failed: set<Source>, after: seq<Item>, base: Base, e: Entry, q: Change)
    returns (p: Change)
    requires Afterwards(v, plan, done, failed, after, base) && ForEntry(Again(v, base, after), e, q) && v.Its(e).Some?
    ensures ForEntry(v, e, p)
  {
    if v.ChangesOf(e) == [] {
      AgainSame(v, plan, done, failed, after, base, e);
    }
    AtMostOne(v, e);
    p := v.ChangesOf(e)[0];
  }

  lemma ItsOffered(v: View, plan: Carrying, done: set<Source>, failed: set<Source>, after: seq<Item>, base: Base, e: Entry, q: Change)
    returns (p: Change, c: Change)
    requires Afterwards(v, plan, done, failed, after, base) && ForEntry(Again(v, base, after), e, q) && v.Its(e).Some?
    ensures p in v.Changes() && c in plan.changes && SamePlan(p, c) && OfferedAgain(c, failed) && q == Offer(p, failed)
  {
    p := ItsPlanned(v, plan, done, failed, after, base, e, q);
    c := EntryChosen(v, plan, e, p);
    EntryChangeIs(v, e, p);
    AgainAltered(v, plan, done, failed, after, base, e, p);
  }

  lemma NewOffered(v: View, plan: Carrying, done: set<Source>, failed: set<Source>, after: seq<Item>, base: Base, e: Entry, q: Change)
    returns (p: Change, c: Change)
    requires Afterwards(v, plan, done, failed, after, base) && ForEntry(Again(v, base, after), e, q) && v.Its(e).None?
    ensures p in v.Changes() && c in plan.changes && SamePlan(p, c) && OfferedAgain(c, failed) && q == Offer(p, failed)
  {
    p := NewChange(v.Sight(), e);
    assert ForEntry(v, e, p);
    c := EntryChosen(v, plan, e, p);
    EntryChangeIs(v, e, p);
    WhenDone(plan, done, failed, c);
    AgainNew(v, plan, done, failed, after, base, e, p);
  }

  lemma Offers(v: View, plan: Carrying, done: set<Source>, failed: set<Source>, after: seq<Item>, base: Base, p: Change, c: Change)
    requires Afterwards(v, plan, done, failed, after, base)
    requires p in v.Changes() && c in plan.changes && SamePlan(p, c) && OfferedAgain(c, failed)
    ensures Offer(p, failed) in Again(v, base, after).Changes()
  {
    var (w, q) := (Again(v, base, after), Offer(p, failed));
    ChangesAre(v, p);
    ChangesAre(w, q);
    WhenDone(plan, done, failed, c);
    if e :| ForEntry(v, e, p) {
      EntryChangeIs(v, e, p);
      if v.Its(e).Some? {
        AgainAltered(v, plan, done, failed, after, base, e, p);
      } else {
        AgainNew(v, plan, done, failed, after, base, e, p);
      }
      assert ForEntry(w, e, q);
    } else {
      var x :| ForGone(v, x, p);
      GoneChangeIs(v, x, p);
      AgainGone(v, plan, done, failed, after, base, x, p);
    }
  }

  /** No item changes its entry again. */
  lemma NoAdoptionAgain(v: View, plan: Carrying, done: set<Source>, failed: set<Source>, after: seq<Item>, base: Base)
    requires Afterwards(v, plan, done, failed, after, base)
    ensures Again(v, base, after).Adoptions() == []
  {
    var w := Again(v, base, after);
    if w.Adoptions() != [] {
      var a := w.Adoptions()[0];
      AdoptionIs(w, a);
      var e :| e in w.entries && TakesOver(w, e, a);
      NothingAdopted(v, plan, done, failed, after, base, e);
      assert false;
    }
  }
}
