/** Tag-set reconciliation (`Media.prototype.setTags`): diff the stored tag ids
    against the incoming ones, unrelate the stale ids and relate the new ones. */
module TagSync {
  import opened Lists
  import opened Store

  /** The two writes `setTags` issues: join rows to delete and join rows to insert. */
  datatype Plan = Plan(unrelate: seq<TagId>, relate: seq<TagId>)

  /** Which of the two concurrent writes the store rejects (connection loss,
      constraint violation); each write is one statement, applied whole or not at all. */
  datatype Faults = Faults(unrelateFails: bool, relateFails: bool)

  /** What the caller observes: the incoming tags back, or a storage error. */
  datatype Outcome = Done(tags: seq<Tag>) | StorageError

  /** The diff between the stored ids and the incoming ids. */
  function PlanTags(existing: seq<TagId>, incoming: seq<TagId>): (p: Plan)
    ensures forall t :: t in p.unrelate <==> t in existing && t !in incoming
    ensures forall t :: t in p.relate <==> t in incoming && t !in existing
    ensures Elems(p.unrelate) !! Elems(p.relate)
    ensures Distinct(existing) ==> Distinct(p.unrelate)
    ensures Distinct(incoming) ==> Distinct(p.relate)
  {
    Plan(Difference(existing, incoming), Difference(incoming, existing))
  }

  /** Identical id sets give an empty diff on both sides. */
  lemma SamePlanIsEmpty(existing: seq<TagId>, incoming: seq<TagId>)
    requires Elems(existing) == Elems(incoming)
    ensures PlanTags(existing, incoming) == Plan([], [])
  {
    DifferenceExtremes(existing, incoming);
    DifferenceExtremes(incoming, existing);
  }

  /** Stored {1, 2}, incoming {2, 3}: unrelate 1, relate 3, leave 2 alone. */
  lemma PlanExample()
    ensures PlanTags([1, 2], [2, 3]) == Plan([1], [3])
  {
  }

  /** Delete the join rows of media `m` whose tag id is listed. */
  function Unrelate(links: set<Link>, m: MediaId, ids: seq<TagId>): (r: set<Link>)
    ensures r <= links
    ensures LinkedTagIds(r, m) == LinkedTagIds(links, m) - Elems(ids)
    ensures forall m' :: m' != m ==> LinkedTagIds(r, m') == LinkedTagIds(links, m')
  {
    var r := set l | l in links && !(l.mediaId == m && l.tagId in ids);
    assert forall m' :: LinkedTagIds(r, m') == LinkedTagIds(links, m') - (if m' == m then Elems(ids) else {}) by {
      forall m' ensures LinkedTagIds(r, m') == LinkedTagIds(links, m') - (if m' == m then Elems(ids) else {}) {
        forall t | t in LinkedTagIds(links, m') - (if m' == m then Elems(ids) else {})
          ensures t in LinkedTagIds(r, m')
        {
          assert Link(m', t) in r;
        }
      }
    }
    r
  }

  /** Insert a join row of media `m` for each listed tag id. */
  function Relate(links: set<Link>, m: MediaId, ids: seq<TagId>): (r: set<Link>)
    ensures links <= r
    ensures forall l :: l in r - links ==> l.mediaId == m
    ensures LinkedTagIds(r, m) == LinkedTagIds(links, m) + Elems(ids)
    ensures forall m' :: m' != m ==> LinkedTagIds(r, m') == LinkedTagIds(links, m')
  {
    var r := links + set t | t in ids :: Link(m, t);
    assert forall m' :: LinkedTagIds(r, m') == LinkedTagIds(links, m') + (if m' == m then Elems(ids) else {}) by {
      forall m' ensures LinkedTagIds(r, m') == LinkedTagIds(links, m') + (if m' == m then Elems(ids) else {}) {
        forall t | t in LinkedTagIds(links, m') + (if m' == m then Elems(ids) else {})
          ensures t in LinkedTagIds(r, m')
        {
          assert Link(m', t) in r;
        }
      }
    }
    r
  }

  /** The join table once the writes that succeeded have landed. */
  function ApplyPlan(links: set<Link>, m: MediaId, p: Plan, faults: Faults): set<Link> {
    var afterUnrelate := if faults.unrelateFails then links else Unrelate(links, m, p.unrelate);
    if faults.relateFails then afterUnrelate else Relate(afterUnrelate, m, p.relate)
  }

  /** The two writes are issued concurrently; on disjoint id lists their order
      does not matter. */
  lemma WritesCommute(links: set<Link>, m: MediaId, unrelate: seq<TagId>, relate: seq<TagId>)
    requires Elems(unrelate) !! Elems(relate)
    ensures Relate(Unrelate(links, m, unrelate), m, relate) == Unrelate(Relate(links, m, relate), m, unrelate)
  {
    var a := Relate(Unrelate(links, m, unrelate), m, relate);
    var b := Unrelate(Relate(links, m, relate), m, unrelate);
    forall l | l in a ensures l in b {
      if l !in links || (l.mediaId == m && l.tagId in relate) {
        assert l.mediaId == m && l.tagId in LinkedTagIds(a, m);
        assert l.tagId in relate;
        assert l.tagId in LinkedTagIds(b, m);
      } else {
        assert l.mediaId != m || l.tagId !in unrelate;
        if l.mediaId == m {
          assert l.tagId in LinkedTagIds(b, m);
        } else {
          assert l.tagId in LinkedTagIds(links, l.mediaId);
        }
      }
    }
    forall l | l in b ensures l in a {
      if l.mediaId == m {
        assert l.tagId in LinkedTagIds(b, m);
        assert l.tagId in LinkedTagIds(a, m);
      } else {
        assert l.tagId in LinkedTagIds(b, l.mediaId);
        assert l.tagId in LinkedTagIds(a, l.mediaId);
      }
    }
  }

  /** Without disjoint lists the order would matter: relating an id after
      unrelating it keeps the row, the other order drops it. */
  lemma OverlappingWritesDoNotCommute(m: MediaId, t: TagId)
    ensures Relate(Unrelate({}, m, [t]), m, [t]) != Unrelate(Relate({}, m, [t]), m, [t])
  {
    assert t in LinkedTagIds(Relate(Unrelate({}, m, [t]), m, [t]), m);
  }

  /** The stored id set of `m` after the diff's writes: the incoming set once both
      land, whatever the two sets were; only the shared ids if only the unrelate
      lands; the union if only the relate lands; the old set if neither does. */
  lemma PlanReconciles(links: set<Link>, m: MediaId, existing: seq<TagId>, incoming: seq<TagId>, faults: Faults)
    requires Elems(existing) == LinkedTagIds(links, m)
    ensures LinkedTagIds(ApplyPlan(links, m, PlanTags(existing, incoming), faults), m) ==
              (if faults.unrelateFails then Elems(existing) else Elems(existing) * Elems(incoming))
              + (if faults.relateFails then {} else Elems(incoming))
    ensures !faults.unrelateFails && !faults.relateFails ==>
              LinkedTagIds(ApplyPlan(links, m, PlanTags(existing, incoming), faults), m) == Elems(incoming)
  {
  }

  /** Both writes touch only join rows of `m`, whichever of them land. */
  lemma PlanIsLocal(links: set<Link>, m: MediaId, p: Plan, faults: Faults, m': MediaId)
    requires m' != m
    ensures LinkedTagIds(ApplyPlan(links, m, p, faults), m') == LinkedTagIds(links, m')
  {
  }

  /** The writes keep every join row pointing at a catalog entry, provided the
      relate, when it lands, lists catalog ids only. */
  lemma PlanKeepsLinksResolved(db: Db, m: MediaId, p: Plan, faults: Faults)
    requires LinksResolve(db)
    requires faults.relateFails || Elems(p.relate) <= db.tagNames.Keys
    ensures LinksResolve(db.(links := ApplyPlan(db.links, m, p, faults)))
  {
  }

  /** Each write of the diff changes the store: every unrelated id is stored and
      every related id is not. */
  lemma PlanHasNoRedundantWrites(db: Db, m: MediaId, existing: seq<TagId>, incoming: seq<TagId>)
    requires Elems(existing) == LinkedTagIds(db.links, m) * db.tagNames.Keys
    ensures forall t :: t in PlanTags(existing, incoming).unrelate ==> Link(m, t) in db.links
    ensures LinksResolve(db) ==> forall t :: t in PlanTags(existing, incoming).relate ==> Link(m, t) !in db.links
  {
    var p := PlanTags(existing, incoming);
    forall t | t in p.unrelate ensures Link(m, t) in db.links {
      assert t in Elems(existing);
      var l :| l in db.links && l.mediaId == m && l.tagId == t;
      assert l == Link(m, t);
    }
    if LinksResolve(db) {
      forall t | t in p.relate ensures Link(m, t) !in db.links {
        assert t !in LinkedTagIds(db.links, m) * db.tagNames.Keys;
      }
    }
  }

  /** `setTags(mediaTags)`: load the stored tags, diff, issue both writes, and
      hand back the caller's own list. Returns the new store, what the caller
      sees, and the writes issued. */
  method SetTags(db: Db, m: MediaId, mediaTags: seq<Tag>, faults: Faults) returns (db': Db, out: Outcome, plan: Plan)
    ensures db'.media == db.media && db'.tagNames == db.tagNames
    ensures out.Done? <==> !faults.unrelateFails && !faults.relateFails
    ensures out.Done? ==> out.tags == mediaTags
    // the writes issued: stale ids out, new ids in, shared ids untouched
    ensures Elems(plan.unrelate) == LinkedTagIds(db.links, m) * db.tagNames.Keys - Elems(Ids(mediaTags))
    ensures Elems(plan.relate) == Elems(Ids(mediaTags)) - LinkedTagIds(db.links, m) * db.tagNames.Keys
    ensures Elems(plan.unrelate) !! Elems(plan.relate)
    ensures Distinct(plan.unrelate)
    ensures Distinct(Ids(mediaTags)) ==> Distinct(plan.relate)
    // no redundant writes: each delete hits a stored row, each insert a missing one
    ensures forall t :: t in plan.unrelate ==> Link(m, t) in db.links
    ensures LinksResolve(db) ==> forall t :: t in plan.relate ==> Link(m, t) !in db.links
    ensures Elems(Ids(mediaTags)) == LinkedTagIds(db.links, m) * db.tagNames.Keys ==>
              plan == Plan([], []) && db'.links == db.links
    // the resulting join table
    ensures db'.links == ApplyPlan(db.links, m, plan, faults)
    ensures out.Done? && LinksResolve(db) ==> LinkedTagIds(db'.links, m) == Elems(Ids(mediaTags))
    ensures LinksResolve(db) && !out.Done? ==>
              LinkedTagIds(db'.links, m) ==
                (if faults.unrelateFails then LinkedTagIds(db.links, m) else LinkedTagIds(db.links, m) * Elems(Ids(mediaTags)))
                + (if faults.relateFails then {} else Elems(Ids(mediaTags)))
    ensures forall m' :: m' != m ==> LinkedTagIds(db'.links, m') == LinkedTagIds(db.links, m')
    // the two concurrent writes give the same table in either order
    ensures out.Done? ==> db'.links == Unrelate(Relate(db.links, m, plan.relate), m, plan.unrelate)
    // the foreign key survives when the incoming tags are catalog tags
    ensures LinksResolve(db) && (faults.relateFails || Elems(Ids(mediaTags)) <= db.tagNames.Keys) ==>
              LinksResolve(db')
  {
    var incoming := Ids(mediaTags);
    var existingTags := RelatedTags(db, m);
    var existing := Ids(existingTags);
    assert Elems(existing) == LinkedTagIds(db.links, m) * db.tagNames.Keys;
    plan := PlanTags(existing, incoming);
    db' := db.(links := ApplyPlan(db.links, m, plan, faults));
    out := if faults.unrelateFails || faults.relateFails then StorageError else Done(mediaTags);
    PlanHasNoRedundantWrites(db, m, existing, incoming);
    if Elems(incoming) == Elems(existing) {
      SamePlanIsEmpty(existing, incoming);
    }
    if LinksResolve(db) {
      assert LinkedTagIds(db.links, m) <= db.tagNames.Keys;
      PlanReconciles(db.links, m, existing, incoming, faults);
    }
    forall m' | m' != m ensures LinkedTagIds(db'.links, m') == LinkedTagIds(db.links, m') {
      PlanIsLocal(db.links, m, plan, faults, m');
    }
    if out.Done? {
      WritesCommute(db.links, m, plan.unrelate, plan.relate);
    }
    if LinksResolve(db) && (faults.relateFails || Elems(incoming) <= db.tagNames.Keys) {
      PlanKeepsLinksResolved(db, m, plan, faults);
    }
  }
}
