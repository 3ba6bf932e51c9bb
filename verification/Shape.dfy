/** Conditions on compiled items under which match() keeps to the ordered-choice
    meaning: a repeated bracket without the S form never matches empty, an S bracket
    inside another is followed by a byte, and no capture number lies inside itself. */
module Shape {
  import opened Bytes
  import opened Code
  import opened Semantics

  // ---------- what could match empty ----------

  /** Items that need no byte: the scan of could_be_empty_branch, had it looked at
      every branch of an S bracket and gone on behind it. */
  predicate Hollow(ns: Nodes) {
    match ns
    case Nil => true
    case Cons(n, rest) => HollowNode(n) && Hollow(rest)
  }

  predicate HollowNode(n: Node) {
    match n
    case Zero(_) => true
    case One(_) => false
    case Rep(_, k) => k.Min() == 0
    case Grp(z, g) => z != NoPrefix || HollowGroup(g)
    case Once(ns) => Hollow(ns)
  }

  predicate HollowGroup(g: Group) { Hollow(g.b) || HollowAlts(g.more) }

  predicate HollowAlts(a: Alts) {
    match a
    case NoAlt => false
    case Alt(b, more) => Hollow(b) || HollowAlts(more)
  }

  // ---------- S brackets ----------

  /** A repeating bracket that does not have the S form is not hollow: the scan has
      missed none. S brackets may be nested in S brackets. */
  predicate Guarded(ns: Nodes) {
    match ns
    case Nil => true
    case Cons(n, rest) => (n.Grp? ==> GuardedGroup(n.g)) && (n.Once? ==> Guarded(n.ns)) && Guarded(rest)
  }

  predicate GuardedGroup(g: Group) {
    (g.ket != Ket && !g.s ==> !HollowGroup(g)) && Guarded(g.b) && GuardedAlts(g.more)
  }

  predicate GuardedAlts(a: Alts) {
    match a
    case NoAlt => true
    case Alt(b, more) => Guarded(b) && GuardedAlts(more)
  }

  /** An S bracket inside another one is followed by a byte before the end of the outer
      one. sure: the same holds at the end of these items, or no S bracket is open. */
  predicate Calm(ns: Nodes, sure: bool) {
    match ns
    case Nil => true
    case Cons(n, rest) => (n.Grp? ==> CalmGroup(n.g, sure || !Hollow(rest))) && Calm(rest, sure)
  }

  predicate CalmGroup(g: Group, sure: bool) {
    (g.s ==> sure) && Calm(g.b, !g.s && sure) && CalmAlts(g.more, !g.s && sure)
  }

  predicate CalmAlts(a: Alts, sure: bool) {
    match a
    case NoAlt => true
    case Alt(b, more) => Calm(b, sure) && CalmAlts(more, sure)
  }

  // ---------- capture numbers ----------

  function Caps(ns: Nodes): set<nat> {
    match ns
    case Nil => {}
    case Cons(n, rest) => (if n.Grp? then CapsGroup(n.g) else if n.Once? then Caps(n.ns) else {}) + Caps(rest)
  }

  function CapsGroup(g: Group): set<nat> {
    (if g.cap == 0 then {} else {g.cap}) + Caps(g.b) + CapsAlts(g.more)
  }

  function CapsAlts(a: Alts): set<nat> {
    match a
    case NoAlt => {}
    case Alt(b, more) => Caps(b) + CapsAlts(more)
  }

  // ---------- the conditions ----------

  /** Every way through the branches of g consumes at least one byte. */
  ghost predicate NonEmpty(c: Ctx, g: Group) {
    forall r: Res :: r.pos <= |c.s| ==>
      Good(c, r.pos + 1, AllNodes(c, g.b, r)) && Good(c, r.pos + 1, AllAlts(c, g.more, r))
  }

  ghost predicate OkNodes(c: Ctx, ns: Nodes) {
    match ns
    case Nil => true
    case Cons(n, rest) => (n.Grp? ==> OkGroup(c, n.g)) && OkNodes(c, rest)
  }

  ghost predicate OkGroup(c: Ctx, g: Group) {
    && (g.ket != Ket && !g.s ==> NonEmpty(c, g))
    && (g.cap != 0 ==> g.cap !in Caps(g.b) + CapsAlts(g.more))
    && OkNodes(c, g.b) && OkAlts(c, g.more)
  }

  ghost predicate OkAlts(c: Ctx, a: Alts) {
    match a
    case NoAlt => true
    case Alt(b, more) => OkNodes(c, b) && OkAlts(c, more)
  }
}
