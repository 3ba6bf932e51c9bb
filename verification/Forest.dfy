/** Compiled code is a well-nested forest of brackets. */
module Forest {
  import opened Bytes
  import opened Code
  import opened Layout
  import opened Pattern
  import opened Lowering
  import opened Emptiness
  import opened PreCompile
  import opened Emit

  /** In the code at pc every bracket is sound, at every depth. */
  predicate Sound(code: seq<Byte>, pc: nat, ns: Nodes)
    decreases ns, 0
  {
    match ns
    case Nil => true
    case Cons(n, rest) =>
      (n.Grp? ==> SoundGroup(code, pc + |EncPrefix(n.z)|, n.g)) && (n.Once? ==> SoundOnce(code, pc, n.ns)) &&
      Sound(code, pc + |EncNode(n)|, rest)
  }

  /** The atomic bracket at pc: its link leads to its ket, and the ket's link back. */
  predicate SoundOnce(code: seq<Byte>, pc: nat, ns: Nodes)
    decreases ns, 1
  {
    var ket := pc + 3 + |EncNodes(ns)|;
    && ket + 3 <= |code| && At(code, pc) == OP_ONCE && At(code, ket) == OP_KET
    && SkipAlts(code, pc) == ket && ket - Get(code, ket + 1) == pc && Sound(code, pc + 3, ns)
  }

  /** The bracket at pc: from it and from each of its ALTs the links lead to the same
      ket, and the link of the ket leads back to pc. */
  predicate SoundGroup(code: seq<Byte>, pc: nat, g: Group)
    decreases g, 0
  {
    var ket := pc + Span(g);
    && ket + 3 <= |code| && At(code, pc) == BraOp(g) && At(code, ket) == KetOp(g.ket)
    && SkipAlts(code, pc) == ket && ket - Get(code, ket + 1) == pc
    && Sound(code, pc + HeadLen(g), g.b)
    && SoundAlts(code, pc + HeadLen(g) + |EncNodes(g.b)|, g.more, ket)
  }

  predicate SoundAlts(code: seq<Byte>, pc: nat, a: Alts, ket: nat)
    decreases a, 0
  {
    match a
    case NoAlt => pc == ket
    case Alt(b, more) =>
      At(code, pc) == OP_ALT && SkipAlts(code, pc) == ket && pc < ket &&
      Sound(code, pc + 3, b) && SoundAlts(code, pc + 3 + |EncNodes(b)|, more, ket)
  }

  lemma {:induction false} NodesSound(code: seq<Byte>, pc: nat, ns: Nodes)
    requires Has(code, pc, EncNodes(ns)) && |code| <= MAX_PATTERN_SIZE
    ensures Sound(code, pc, ns)
    decreases ns, 1
  {
    hide EncGroup, Has, SoundGroup, SoundOnce, OnceBytes, SkipAlts;
    if ns.Cons? {
      assert ns == Cons(ns.n, ns.rest);
      NodesAt(code, pc, ns.n, ns.rest);
      NodesSound(code, pc + |EncNode(ns.n)|, ns.rest);
      if ns.n.Grp? {
        HasSplit(code, pc, EncPrefix(ns.n.z), EncGroup(ns.n.g));
        GroupSound(code, pc + |EncPrefix(ns.n.z)|, ns.n.g);
      }
      if ns.n.Once? { OnceSound(code, pc, ns.n.ns); }
    }
  }

  lemma {:induction false} OnceSound(code: seq<Byte>, pc: nat, ns: Nodes)
    requires Has(code, pc, OnceBytes(EncNodes(ns))) && |code| <= MAX_PATTERN_SIZE
    ensures SoundOnce(code, pc, ns)
    decreases ns, 2
  {
    hide EncNodes, Has, Sound, SkipAlts, OnceBytes;
    OnceAt(code, pc, EncNodes(ns));
    NodesSound(code, pc + 3, ns);
    SkipStep(code, pc, pc + 3 + |EncNodes(ns)|);
  }

  lemma {:induction false} GroupSound(code: seq<Byte>, pc: nat, g: Group)
    requires Has(code, pc, EncGroup(g)) && |code| <= MAX_PATTERN_SIZE
    ensures SoundGroup(code, pc, g)
    decreases g, 0
  {
    hide EncGroup, EncNodes, EncAlts, Has, Sound, SoundAlts, SkipAlts;
    GroupAt(code, pc, g);
    SkipGroup(code, pc, g);
    NodesSound(code, pc + HeadLen(g), g.b);
    AltsSound(code, pc + HeadLen(g) + |EncNodes(g.b)|, g.more, pc + Span(g));
  }

  lemma {:induction false} AltsSound(code: seq<Byte>, pc: nat, a: Alts, ket: nat)
    requires Has(code, pc, EncAlts(a)) && pc + |EncAlts(a)| == ket && 0 < pc && |code| <= MAX_PATTERN_SIZE
    requires At(code, ket) != OP_ALT
    ensures SoundAlts(code, pc, a, ket)
    decreases a, 1
  {
    hide EncNodes, Has, Sound, SkipAlts;
    if a.Alt? {
      assert a == Alt(a.b, a.more);
      AltAt(code, pc, a.b, a.more);
      AltLen(a.b, a.more);
      SkipAltsEnd(code, pc, a.b, a.more, ket);
      NodesSound(code, pc + 3, a.b);
      AltsSound(code, pc + 3 + |EncNodes(a.b)|, a.more, ket);
    }
  }

  /** Every pattern that fits is compiled to a sound forest: one outer bracket, then END. */
  lemma CompiledSound(b: Branch, more: Branches, nocase: bool)
    requires ValidBranch(b, nocase) && ValidMore(more, nocase) && PreLength(b, more, nocase) <= MAX_PATTERN_SIZE
    ensures var code := EncProgram(Compile(b, more, nocase));
      SoundGroup(code, 0, Compile(b, more, nocase)) && At(code, SkipAlts(code, 0) + 3) == OP_END
  {
    hide EncGroup, Compile, SoundGroup, SkipAlts, PreLength, Span;
    LengthSuffices(b, more, nocase);
    var g := Compile(b, more, nocase);
    ProgramSound(g);
  }

  lemma ProgramSound(g: Group)
    requires |EncProgram(g)| <= MAX_PATTERN_SIZE
    ensures SoundGroup(EncProgram(g), 0, g) && At(EncProgram(g), SkipAlts(EncProgram(g), 0) + 3) == OP_END
  {
    hide EncGroup, SoundGroup, SkipAlts;
    var code := EncProgram(g);
    assert code[..|EncGroup(g)|] == EncGroup(g);
    GroupSound(code, 0, g);
    SkipGroup(code, 0, g);
  }
}
