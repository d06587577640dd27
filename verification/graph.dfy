/**
 The object graph seen by the counting rules: reference sites, who holds them, what they reach, and
 the invariants that tie header and region counts to them (the check in vbci/thread.cc:651-743, stated exactly).
 */
module Graphs {
  import opened Regions

  /** A field or register: nothing of interest, or a reference to an object or array. */
  datatype Ref = Null | To(target: HeaderId)

  /** Where a header lives; vbci/location.h packs this into one tagged word. */
  datatype Location = Stack(level: nat) | Immutable | Immortal | InRegion(region: RegionId)

  datatype Header = Header(loc: Location, rc: int, fields: seq<Ref>)

  /** `cowns` holds the contents of the cowns. */
  datatype View = View(headers: map<HeaderId, Header>, registers: seq<Ref>, cowns: seq<Ref>)

  /** A place that can hold a reference; `Entry` stands for the reference a traversal starts from. */
  datatype Site = Entry | Register(index: int) | Field(holder: HeaderId, index: int) | Content(cown: int)

  predicate IsSite(v: View, s: Site) {
    match s
    case Entry => false
    case Register(i) => 0 <= i < |v.registers|
    case Field(h, i) => h in v.headers && 0 <= i < |v.headers[h].fields|
    case Content(c) => 0 <= c < |v.cowns|
  }

  function At(v: View, s: Site): Ref
    requires IsSite(v, s)
  {
    match s
    case Register(i) => v.registers[i]
    case Field(h, i) => v.headers[h].fields[i]
    case Content(c) => v.cowns[c]
  }

  ghost function Sites(v: View): (ss: set<Site>)
    ensures forall s :: s in ss <==> IsSite(v, s)
  {
    (set i | 0 <= i < |v.registers| :: Register(i)) +
    (set c | 0 <= c < |v.cowns| :: Content(c)) +
    (set h, i | h in v.headers && 0 <= i < |v.headers[h].fields| :: Field(h, i))
  }

  predicate PointsTo(v: View, s: Site, t: HeaderId) {
    IsSite(v, s) && At(v, s) == To(t)
  }

  predicate LivesIn(v: View, t: HeaderId, r: RegionId) {
    t in v.headers && v.headers[t].loc == InRegion(r)
  }

  predicate PointsInto(v: View, s: Site, r: RegionId) {
    IsSite(v, s) && At(v, s).To? && LivesIn(v, At(v, s).target, r)
  }

  predicate FrameLocal(v: View, f: Forest, h: HeaderId) {
    h in v.headers && v.headers[h].loc.InRegion? && v.headers[h].loc.region in f && f[v.headers[h].loc.region].IsFrameLocal()
  }

  predicate InHeapRegion(v: View, f: Forest, h: HeaderId) {
    h in v.headers && v.headers[h].loc.InRegion? && v.headers[h].loc.region in f && !f[v.headers[h].loc.region].IsFrameLocal()
  }

  /** Registers, and fields of stack and frame-local objects, report to the regions they reach. */
  predicate StackSide(v: View, f: Forest, s: Site) {
    match s
    case Entry => false
    case Register(_) => true
    case Field(h, _) => h in v.headers && (v.headers[h].loc.Stack? || FrameLocal(v, f, h))
    case Content(_) => false
  }

  /** All references to header `t`. */
  ghost function Pointing(v: View, t: HeaderId): set<Site> {
    set s | s in Sites(v) && PointsTo(v, s, t)
  }

  /** The references from the stack side into region `r`. */
  ghost function StackRefs(v: View, f: Forest, r: RegionId): set<Site> {
    set s | s in Sites(v) && StackSide(v, f, s) && PointsInto(v, s, r)
  }

  // ---------------------------------------------------------------- invariants

  /** References reach headers that exist, and headers live in regions that exist. */
  ghost predicate WellFormed(v: View, f: Forest) {
    && (forall s | IsSite(v, s) :: At(v, s).To? ==> At(v, s).target in v.headers)
    && (forall h | h in v.headers :: v.headers[h].loc.InRegion? ==> v.headers[h].loc.region in f)
  }

  ghost predicate MembersAt(v: View, f: Forest, r: RegionId)
    requires r in f
  {
    forall h :: h in f[r].members <==> LivesIn(v, h, r)
  }

  /** Regions know their headers. */
  ghost predicate Members(v: View, f: Forest) {
    forall r {:trigger MembersAt(v, f, r)} | r in f :: MembersAt(v, f, r)
  }

  ghost predicate AccountedAt(v: View, f: Forest, direct: Counts, r: RegionId)
    requires r in direct
  {
    direct[r] == |StackRefs(v, f, r)|
  }

  /** What has been reported to each heap region is exactly what reaches it from the stack side. */
  ghost predicate Accounted(v: View, f: Forest, direct: Counts) {
    && direct.Keys == f.Keys
    && forall r {:trigger AccountedAt(v, f, direct, r)} | r in f && !f[r].IsFrameLocal() :: AccountedAt(v, f, direct, r)
  }

  ghost predicate RcExactAt(v: View, t: HeaderId)
    requires t in v.headers
  {
    v.headers[t].rc == |Pointing(v, t)|
  }

  /** A header's count is the number of references to it, wherever they are held. */
  ghost predicate RcExact(v: View) {
    forall t {:trigger RcExactAt(v, t)} | t in v.headers && v.headers[t].loc.InRegion? :: RcExactAt(v, t)
  }

  /** May something living at `holder` refer to something living at `target`? */
  predicate Outlives(f: Forest, target: Location, holder: Location) {
    match target
    case Immutable => true
    case Immortal => true
    case Stack(level) => holder.Stack? && level <= holder.level
    case InRegion(r) =>
      r in f &&
      (!f[r].IsFrameLocal() ||
       match holder
       case Stack(level) => f[r].frameDepth <= level + 1
       case InRegion(q) => q in f && f[q].IsFrameLocal() && f[r].frameDepth <= f[q].frameDepth
       case _ => false)
  }

  /** Nothing frozen refers to anything mutable. */
  ghost predicate FrozenClosed(v: View) {
    forall s | IsSite(v, s) && s.Field? && (v.headers[s.holder].loc.Immutable? || v.headers[s.holder].loc.Immortal?) ::
      At(v, s).To? && At(v, s).target in v.headers ==>
        v.headers[At(v, s).target].loc.Immutable? || v.headers[At(v, s).target].loc.Immortal?
  }

  /** No field refers to something that may die before the object holding the field, and no cown to something that may die. */
  ghost predicate Closed(v: View, f: Forest) {
    && FrozenClosed(v)
    && (forall s | IsSite(v, s) && s.Content? && At(v, s).To? && At(v, s).target in v.headers ::
          Outlives(f, v.headers[At(v, s).target].loc, Immortal))
    && forall s | IsSite(v, s) && s.Field? && At(v, s).To? && At(v, s).target in v.headers ::
         Outlives(f, v.headers[At(v, s).target].loc, v.headers[s.holder].loc)
  }

  /** A reference from one heap region into another. */
  predicate Crosses(v: View, f: Forest, s: Site, r: RegionId) {
    && PointsInto(v, s, r) && s.Field?
    && r in f && !f[r].IsFrameLocal()
    && InHeapRegion(v, f, s.holder) && v.headers[s.holder].loc.region != r
  }

  /** What a cown refers to lives in a region that a cown owns. */
  ghost predicate CownsOwn(v: View, f: Forest) {
    forall s: Site, r | s.Content? && PointsInto(v, s, r) && r in f && !f[r].IsFrameLocal() :: f[r].owner == CownOwned
  }

  /** Regions form a tree with one entry: a crossing reference starts in the parent and is unique; other entries are cowns'. */
  ghost predicate SingleEntry(v: View, f: Forest) {
    && CownsOwn(v, f)
    && (forall s, r | Crosses(v, f, s, r) :: f[r].owner == Parent(v.headers[s.holder].loc.region))
    && (forall s, s', r | Crosses(v, f, s, r) && Crosses(v, f, s', r) :: s == s')
  }

  ghost predicate EnteredAt(v: View, f: Forest, x: RegionId) {
    exists s :: Crosses(v, f, s, x)
  }

  /** `t` lives in `x`, and an object of `s`, another heap region, refers to it. */
  ghost predicate EntersThrough(v: View, f: Forest, s: RegionId, x: RegionId, t: HeaderId) {
    LivesIn(v, t, x) && exists a :: Crosses(v, f, a, x) && At(v, a) == To(t) && LivesIn(v, a.holder, s)
  }

  /** From `f` to `g`: `x` keeps its entry with its owner, has none without one, and a new parent refers to the new entry. */
  ghost predicate EntryFollows(v: View, f: Forest, g: Forest, x: RegionId)
    requires x in f && x in g
  {
    if g[x].owner == f[x].owner then g[x].entry == f[x].entry
    else if g[x].owner.Unowned? then g[x].entry.None?
    else g[x].HasParent() && g[x].entry.Some? && EntersThrough(v, g, g[x].owner.region, x, g[x].entry.value)
  }

  /** Entries follow owners, with new entries as `v` has them. */
  ghost predicate EntriesFollow(v: View, f: Forest, g: Forest) {
    f.Keys == g.Keys && forall x {:trigger EntryFollows(v, f, g, x)} | x in f :: EntryFollows(v, f, g, x)
  }

  /** The entry recorded for a region is what the reference from its parent refers to. */
  ghost predicate EntriesExact(v: View, f: Forest) {
    forall a, x | Crosses(v, f, a, x) :: EntryIs(f, x, At(v, a))
  }

  ghost predicate EntryIs(f: Forest, x: RegionId, value: Ref)
    requires x in f
  {
    f[x].entry.Some? && value == To(f[x].entry.value)
  }

  /** A region that has a parent is referred to from it. */
  ghost predicate Entered(v: View, f: Forest) {
    forall x {:trigger EnteredAt(v, f, x)} | x in f && f[x].HasParent() :: EnteredAt(v, f, x)
  }
}
