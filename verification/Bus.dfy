/**
 The interface functions of IEEE 488.1-1987 that address bytes act on: talker and extended
 talker (section 2.5), listener and extended listener (section 2.6), remote/local (2.8),
 device clear (2.10) and device trigger (2.11). Every node hears every command byte, so
 one byte's effect on the bus is its effect on each node.
 */
module Bus {
  import opened Bytes

  const GTL: byte := 0x01
  const SDC: byte := 0x04
  const GET: byte := 0x08
  const LLO: byte := 0x11
  const DCL: byte := 0x14
  const SPE: byte := 0x18
  const SPD: byte := 0x19
  const LAD: byte := 0x20
  const UNL: byte := 0x3F
  const TAD: byte := 0x40
  const UNT: byte := 0x5F
  const SAD: byte := 0x60

  /** A primary address, with a secondary one for instruments with extended addressing. */
  datatype Address = Address(pad: nat, sad: Option<nat>) {
    /** An address that an interface may have. */
    predicate Valid() {
      pad <= 30 && (sad.Some? ==> sad.value <= 30)
    }

    /** An address that the five bits of a command byte can hold, 31 included. */
    predicate Encodable() {
      pad <= 31 && (sad.Some? ==> sad.value <= 31)
    }
  }

  datatype RemoteLocal = LOCS | REMS | LWLS | RWLS

  /** One interface on the bus, the controller's own included. The two flags are the
      options of the standard that drop one role when the other is assigned. */
  datatype Node = Node(addr: Address, untalkOnListen: bool, unlistenOnTalk: bool,
                       tpas: bool, tads: bool, lpas: bool, lads: bool, spms: bool,
                       rl: RemoteLocal, clears: nat, triggers: nat, inbox: seq<BusByte>)
  {
    predicate TalkerCall(c: byte) {
      if addr.sad.None? then c == TAD + addr.pad else tpas && c == SAD + addr.sad.value
    }

    predicate ListenerCall(c: byte) {
      if addr.sad.None? then c == LAD + addr.pad else lpas && c == SAD + addr.sad.value
    }

    predicate TalkerDrop(c: byte) {
      || (TAD <= c < SAD && c != TAD + addr.pad)
      || (addr.sad.Some? && tpas && SAD <= c && c != SAD + addr.sad.value)
      || (untalkOnListen && ListenerCall(c))
    }

    predicate ListenerDrop(c: byte) {
      c == UNL || (unlistenOnTalk && TalkerCall(c))
    }

    function NextLocal(ren: bool, c: byte): RemoteLocal {
      if !ren then LOCS
      else match rl
        case LOCS => if ListenerCall(c) then REMS else if c == LLO then LWLS else LOCS
        case REMS => if c == GTL && lads then LOCS else if c == LLO then RWLS else REMS
        case LWLS => if ListenerCall(c) then RWLS else LWLS
        case RWLS => if c == GTL && lads then LWLS else RWLS
    }

    /** The node after command byte `b`; the eighth data line is not part of a command. */
    function Hear(ren: bool, b: byte): (n: Node)
      ensures n.addr == addr && n.inbox == inbox
      ensures n.untalkOnListen == untalkOnListen && n.unlistenOnTalk == unlistenOnTalk
    {
      var c := b % 0x80;
      this.(
        tpas := if c < SAD then addr.sad.Some? && c == TAD + addr.pad else tpas,
        lpas := if c < SAD then addr.sad.Some? && c == LAD + addr.pad else lpas,
        tads := TalkerCall(c) || (tads && !TalkerDrop(c)),
        lads := ListenerCall(c) || (lads && !ListenerDrop(c)),
        spms := c == SPE || (spms && c != SPD),
        rl := NextLocal(ren, c),
        clears := if c == DCL || (c == SDC && lads) then clears + 1 else clears,
        triggers := if c == GET && lads then triggers + 1 else triggers)
    }

    function HearAll(ren: bool, cmds: seq<byte>): (n: Node)
      ensures n.addr == addr && n.inbox == inbox
      ensures n.untalkOnListen == untalkOnListen && n.unlistenOnTalk == unlistenOnTalk
      decreases |cmds|
    {
      if cmds == [] then this else Hear(ren, cmds[0]).HearAll(ren, cmds[1..])
    }

    /** What a command can do to the instrument behind the interface. */
    predicate SameDevice(n: Node) {
      clears == n.clears && triggers == n.triggers && rl == n.rl && inbox == n.inbox
    }

    /** Local state is the only one possible while REN is not asserted. */
    predicate Settled(ren: bool) {
      ren || rl == LOCS
    }
  }

  /** Does an interface at `own` respond when `called` is addressed? */
  predicate Answers(own: Address, called: Address) {
    own.pad == called.pad && (own.sad.None? || own.sad == called.sad)
  }

  function Mla(pad: nat): byte { pad % 0x20 + LAD }

  function Mta(pad: nat): byte { pad % 0x20 + TAD }

  function Secondary(a: Address): seq<byte> {
    if a.sad.Some? then [a.sad.value % 0x20 + SAD] else []
  }

  function WriteCall(board: nat, a: Address): seq<byte> {
    [UNL, UNT, Mta(board), Mla(a.pad)] + Secondary(a)
  }

  function ReadCall(board: nat, a: Address): seq<byte> {
    [UNL, UNT, Mla(board), Mta(a.pad)] + Secondary(a)
  }

  function PollCall(board: nat, a: Address): seq<byte> {
    [UNL, Mta(a.pad)] + Secondary(a) + [Mla(board), SPE]
  }

  const POLL_END: seq<byte> := [SPD, UNT]

  function CommandCall(a: Address, op: byte): seq<byte> {
    [UNL, Mla(a.pad)] + Secondary(a) + [op]
  }

  lemma HearTwo(n: Node, ren: bool, a: byte, b: byte, rest: seq<byte>)
    ensures n.HearAll(ren, [a, b] + rest) == n.Hear(ren, a).Hear(ren, b).HearAll(ren, rest)
  {
    assert ([a, b] + rest)[1..] == [b] + rest;
    assert ([b] + rest)[1..] == rest;
  }

  lemma HearSecondary(n: Node, ren: bool, a: Address, rest: seq<byte>)
    ensures n.HearAll(ren, Secondary(a) + rest) ==
            (if a.sad.Some? then n.Hear(ren, a.sad.value % 0x20 + SAD) else n).HearAll(ren, rest)
  {
    if a.sad.Some? {
      assert (Secondary(a) + rest)[1..] == rest;
    } else {
      assert Secondary(a) + rest == rest;
    }
  }

  /** Roles of a node: addressed as talker, as listener, and the primary halves of both. */
  predicate Roles(n: Node, tads: bool, lads: bool, tpas: bool, lpas: bool) {
    n.tads == tads && n.lads == lads && n.tpas == tpas && n.lpas == lpas
  }

  /** What addressing bytes cannot touch. */
  predicate SameActions(n: Node, m: Node) {
    n.clears == m.clears && n.triggers == m.triggers && n.spms == m.spms
  }

  lemma HearUnaddress(n: Node, ren: bool)
    requires n.addr.Valid()
    ensures var m := n.Hear(ren, UNL).Hear(ren, UNT);
            Roles(m, false, false, false, false) && SameActions(n, m)
  {
  }

  lemma HearUnl(n: Node, ren: bool)
    requires n.addr.Valid()
    ensures var m := n.Hear(ren, UNL); Roles(m, n.tads, false, false, false) && SameActions(n, m)
  {
  }

  lemma HearOp(n: Node, ren: bool, op: byte)
    requires n.addr.Valid() && n.lads && AddressedOp(op)
    ensures var m := n.Hear(ren, op);
            && m.clears == n.clears + (if op == SDC then 1 else 0)
            && m.triggers == n.triggers + (if op == GET then 1 else 0)
            && (op == GTL ==> m.rl == LOCS || m.rl == LWLS)
            && m.lads
  {
  }

  /** The listen address 31 is UNL. */
  lemma HearMla(n: Node, ren: bool, p: nat)
    requires n.addr.Valid() && p <= 31
    ensures var m := n.Hear(ren, Mla(p)); var me, basic := n.addr.pad == p, n.addr.sad.None?;
            && Roles(m, n.tads && !(n.untalkOnListen && me && basic),
                     (n.lads && p != 31) || (me && basic), false, me && !basic)
            && SameActions(n, m)
  {
    assert Mla(p) % 0x80 == LAD + p;
  }

  /** The talk address 31 is UNT. */
  lemma HearMta(n: Node, ren: bool, p: nat)
    requires n.addr.Valid() && p <= 31
    ensures var m := n.Hear(ren, Mta(p)); var me, basic := n.addr.pad == p, n.addr.sad.None?;
            && Roles(m, (me && basic) || (n.tads && me),
                     n.lads && !(n.unlistenOnTalk && me && basic), me && !basic, false)
            && SameActions(n, m)
  {
    assert Mta(p) % 0x80 == TAD + p;
  }

  lemma HearMsa(n: Node, ren: bool, s: nat)
    requires n.addr.Valid() && s <= 31
    requires !(n.tpas && n.lpas)
    ensures var m := n.Hear(ren, s % 0x20 + SAD); var me := n.addr.sad == Some(s);
            && Roles(m, if n.addr.sad.Some? && n.tpas then me else n.tads && !(n.untalkOnListen && me && n.lpas),
                     (me && n.lpas) || (n.lads && !(n.unlistenOnTalk && me && n.tpas)), n.tpas, n.lpas)
            && SameActions(n, m)
  {
  }

  /** From any state, the write call leaves exactly the nodes that answer to the target
      listening, and exactly those that answer to the board talking. That is so for the
      reserved address 31 as well, which nobody answers to as a primary one, and as a
      secondary one only nodes without secondary addressing. */
  lemma WriteCallRoles(n: Node, ren: bool, board: nat, a: Address)
    requires n.addr.Valid() && a.Encodable() && board <= 30
    ensures var m := n.HearAll(ren, WriteCall(board, a));
            && (m.lads <==> Answers(n.addr, a))
            && (m.tads <==> Answers(n.addr, Address(board, None)) && !(n.untalkOnListen && Answers(n.addr, a)))
            && SameActions(n, m)
  {
    var tail := [Mta(board), Mla(a.pad)] + Secondary(a);
    assert WriteCall(board, a) == [UNL, UNT] + tail;
    HearTwo(n, ren, UNL, UNT, tail);
    HearUnaddress(n, ren);
    var n1 := n.Hear(ren, UNL).Hear(ren, UNT);
    HearTwo(n1, ren, Mta(board), Mla(a.pad), Secondary(a));
    HearMta(n1, ren, board);
    var n2 := n1.Hear(ren, Mta(board));
    HearMla(n2, ren, a.pad);
    var n3 := n2.Hear(ren, Mla(a.pad));
    assert Secondary(a) == Secondary(a) + [];
    HearSecondary(n3, ren, a, []);
    if a.sad.Some? {
      HearMsa(n3, ren, a.sad.value);
    }
  }

  /** The mirror image: the target talks and the board listens. */
  lemma ReadCallRoles(n: Node, ren: bool, board: nat, a: Address)
    requires n.addr.Valid() && a.Encodable() && board <= 30
    ensures var m := n.HearAll(ren, ReadCall(board, a));
            && (m.tads <==> Answers(n.addr, a))
            && (m.lads <==> Answers(n.addr, Address(board, None)) && !(n.unlistenOnTalk && Answers(n.addr, a)))
            && SameActions(n, m)
  {
    var tail := [Mla(board), Mta(a.pad)] + Secondary(a);
    assert ReadCall(board, a) == [UNL, UNT] + tail;
    HearTwo(n, ren, UNL, UNT, tail);
    HearUnaddress(n, ren);
    var n1 := n.Hear(ren, UNL).Hear(ren, UNT);
    HearTwo(n1, ren, Mla(board), Mta(a.pad), Secondary(a));
    HearMla(n1, ren, board);
    var n2 := n1.Hear(ren, Mla(board));
    HearMta(n2, ren, a.pad);
    var n3 := n2.Hear(ren, Mta(a.pad));
    assert Secondary(a) == Secondary(a) + [];
    HearSecondary(n3, ren, a, []);
    if a.sad.Some? {
      HearMsa(n3, ren, a.sad.value);
    }
  }

  /** An extended talker that a primary-only call of its own primary address does not reach
      and does not silence either. */
  predicate Stale(n: Node, a: Address) {
    n.addr.pad == a.pad && a.sad.None? && n.addr.sad.Some? && n.tads
  }

  /** A serial poll sends no UNT first. The polled node talks afterwards, and every other node
      drops out on hearing another talk address, except exactly the stale ones. */
  lemma PollCallRoles(n: Node, ren: bool, board: nat, a: Address)
    requires n.addr.Valid() && a.Encodable() && board <= 30 && board != a.pad
    ensures var m := n.HearAll(ren, PollCall(board, a));
            && (m.tads <==> Answers(n.addr, a) || Stale(n, a))
            && (m.lads <==> Answers(n.addr, Address(board, None)))
            && m.spms
  {
    var end := [Mla(board), SPE];
    assert PollCall(board, a) == [UNL, Mta(a.pad)] + (Secondary(a) + end);
    HearTwo(n, ren, UNL, Mta(a.pad), Secondary(a) + end);
    HearSecondary(n.Hear(ren, UNL).Hear(ren, Mta(a.pad)), ren, a, end);
    var n3 := PollCallTalker(n, ren, a);
    assert end == end + [];
    HearTwo(n3, ren, Mla(board), SPE, []);
    HearMla(n3, ren, board);
    HearSpe(n3.Hear(ren, Mla(board)), ren);
  }

  /** One stale talker: addressed before as 5 with secondary 1, it still talks after a poll of
      primary address 5. */
  lemma StaleTalkerExists(ren: bool)
    ensures var n := Node(Address(5, Some(1)), false, false, false, true, false, false, false, LOCS, 0, 0, []);
            !Answers(n.addr, Address(5, None)) && n.HearAll(ren, PollCall(0, Address(5, None))).tads
  {
    var n := Node(Address(5, Some(1)), false, false, false, true, false, false, false, LOCS, 0, 0, []);
    PollCallRoles(n, ren, 0, Address(5, None));
  }

  lemma HearSpe(n: Node, ren: bool)
    requires n.addr.Valid()
    ensures var m := n.Hear(ren, SPE); m.tads == n.tads && m.lads == n.lads && m.spms
  {
  }

  lemma PollCallTalker(n: Node, ren: bool, a: Address) returns (m: Node)
    requires n.addr.Valid() && a.Encodable()
    ensures var n2 := n.Hear(ren, UNL).Hear(ren, Mta(a.pad));
            m == if a.sad.Some? then n2.Hear(ren, a.sad.value % 0x20 + SAD) else n2
    ensures m.addr == n.addr && m.untalkOnListen == n.untalkOnListen
    ensures (m.tads <==> Answers(n.addr, a) || Stale(n, a)) && !m.lads
  {
    HearUnl(n, ren);
    var n1 := n.Hear(ren, UNL);
    HearMta(n1, ren, a.pad);
    var n2 := n1.Hear(ren, Mta(a.pad));
    m := n2;
    if a.sad.Some? {
      HearMsa(n2, ren, a.sad.value);
      m := n2.Hear(ren, a.sad.value % 0x20 + SAD);
    }
  }

  /** SPD, UNT ends a serial poll from every state whatsoever. */
  lemma PollEndClears(n: Node, ren: bool)
    requires n.addr.Valid()
    ensures var m := n.HearAll(ren, POLL_END);
            !m.spms && !m.tads && m.lads == n.lads && m.clears == n.clears && m.triggers == n.triggers
  {
    assert POLL_END == [SPD, UNT] + [];
    HearTwo(n, ren, SPD, UNT, []);
  }

  predicate Passive(b: byte) {
    var c := b % 0x80; c != DCL && c != SDC && c != GET
  }

  /** Device clear and trigger need their own commands: addressing alone does neither. */
  lemma {:induction false} NoActionCommand(n: Node, ren: bool, cmds: seq<byte>)
    requires forall i :: 0 <= i < |cmds| ==> Passive(cmds[i])
    ensures var m := n.HearAll(ren, cmds); m.clears == n.clears && m.triggers == n.triggers
    decreases |cmds|
  {
    if cmds != [] {
      NoActionCommand(n.Hear(ren, cmds[0]), ren, cmds[1..]);
    }
  }

  /** Only SPE turns serial-poll mode on. */
  lemma {:induction false} NoPollEnable(n: Node, ren: bool, cmds: seq<byte>)
    requires forall i :: 0 <= i < |cmds| ==> cmds[i] % 0x80 != SPE && cmds[i] % 0x80 != SPD
    ensures n.HearAll(ren, cmds).spms == n.spms
    decreases |cmds|
  {
    if cmds != [] {
      NoPollEnable(n.Hear(ren, cmds[0]), ren, cmds[1..]);
    }
  }

  predicate AddressedOp(op: byte) {
    op == SDC || op == GET || op == GTL
  }

  /** A node that is not called and not listening ignores addressed commands. */
  lemma {:induction false} Aloof(n: Node, ren: bool, a: Address, cmds: seq<byte>)
    requires n.addr.Valid() && a.Encodable() && !Answers(n.addr, a) && n.Settled(ren)
    requires !n.lads && (n.lpas ==> n.addr.pad == a.pad)
    requires forall i :: 0 <= i < |cmds| ==>
      cmds[i] == Mla(a.pad) || cmds[i] in Secondary(a) || AddressedOp(cmds[i])
    ensures var m := n.HearAll(ren, cmds); m.SameDevice(n) && !m.lads
    decreases |cmds|
  {
    if cmds != [] {
      AloofStep(n, ren, a, cmds[0]);
      Aloof(n.Hear(ren, cmds[0]), ren, a, cmds[1..]);
    }
  }

  lemma AloofStep(n: Node, ren: bool, a: Address, c: byte)
    requires n.addr.Valid() && a.Encodable() && !Answers(n.addr, a) && n.Settled(ren)
    requires !n.lads && (n.lpas ==> n.addr.pad == a.pad) && (c == Mla(a.pad) || c in Secondary(a) || AddressedOp(c))
    ensures var m := n.Hear(ren, c); m.SameDevice(n) && m.Settled(ren) && !m.lads && (m.lpas ==> m.addr.pad == a.pad)
  {
    assert !n.ListenerCall(c % 0x80);
  }

  /** Selectivity, for the instruments not addressed: whatever prefix of the call arrives,
      and from any state, the device behind the interface sees nothing. */
  lemma OthersUntouched(n: Node, ren: bool, a: Address, op: byte, k: nat)
    requires n.addr.Valid() && a.Encodable() && !Answers(n.addr, a) && n.Settled(ren)
    requires AddressedOp(op) && k <= |CommandCall(a, op)|
    ensures n.HearAll(ren, CommandCall(a, op)[..k]).SameDevice(n)
  {
    if k > 0 {
      var sent := CommandCall(a, op)[..k];
      var m := n.Hear(ren, UNL);
      assert sent[0] == UNL && !m.lads && !m.lpas;
      forall i | 0 <= i < |sent[1..]|
        ensures sent[1..][i] == Mla(a.pad) || sent[1..][i] in Secondary(a) || AddressedOp(sent[1..][i])
      {
        assert sent[1..][i] == CommandCall(a, op)[i + 1];
      }
      Aloof(m, ren, a, sent[1..]);
    }
  }

  /** Selectivity, for the addressed instrument: the full call acts on it exactly once. */
  lemma TargetActs(n: Node, ren: bool, a: Address, op: byte)
    requires n.addr.Valid() && a.Encodable() && Answers(n.addr, a) && AddressedOp(op)
    ensures var m := n.HearAll(ren, CommandCall(a, op));
            && m.clears == n.clears + (if op == SDC then 1 else 0)
            && m.triggers == n.triggers + (if op == GET then 1 else 0)
            && (op == GTL ==> m.rl == LOCS || m.rl == LWLS)
            && m.lads
  {
    assert CommandCall(a, op) == [UNL, Mla(a.pad)] + (Secondary(a) + [op]);
    HearTwo(n, ren, UNL, Mla(a.pad), Secondary(a) + [op]);
    HearUnl(n, ren);
    var n1 := n.Hear(ren, UNL);
    HearMla(n1, ren, a.pad);
    var n2 := n1.Hear(ren, Mla(a.pad));
    HearSecondary(n2, ren, a, [op]);
    var n3 := n2;
    if a.sad.Some? {
      HearMsa(n2, ren, a.sad.value);
      n3 := n2.Hear(ren, a.sad.value % 0x20 + SAD);
    }
    HearOp(n3, ren, op);
    assert n3.HearAll(ren, [op]) == n3.Hear(ren, op).HearAll(ren, []);
  }

  /** An interrupted poll call leaves the bus in serial-poll mode exactly when it got as far
      as its last byte. */
  lemma InterruptedPollMode(n: Node, ren: bool, board: nat, a: Address, k: nat)
    requires k <= |PollCall(board, a)|
    ensures n.HearAll(ren, PollCall(board, a)[..k]).spms <==> n.spms || k == |PollCall(board, a)|
  {
    var call := PollCall(board, a);
    var head := [UNL, Mta(a.pad)] + Secondary(a) + [Mla(board)];
    assert call == head + [SPE];
    if k < |call| {
      assert call[..k] == head[..k];
      NoPollEnable(n, ren, head[..k]);
    } else {
      assert call[..k] == head + [SPE];
      HearAppend(n, ren, head, [SPE]);
      var m := n.HearAll(ren, head);
      assert m.HearAll(ren, [SPE]) == m.Hear(ren, SPE).HearAll(ren, []);
    }
  }

  /** Does a node talk after the first `k` bytes of a poll call? UNL alone changes nothing, the
      talk address silences all others, and an extended call leaves the decision to its
      secondary address. */
  predicate TalksAfter(n: Node, a: Address, k: nat) {
    if k < 2 then n.tads
    else if k == 2 && a.sad.Some? then n.addr.pad == a.pad && (n.addr.sad.None? || n.tads)
    else Answers(n.addr, a) || Stale(n, a)
  }

  lemma PollTail(n: Node, ren: bool, board: nat, j: nat)
    requires n.addr.Valid() && board <= 30 && j <= 2 && (n.tads ==> n.addr.pad != board)
    ensures n.HearAll(ren, [Mla(board), SPE][..j]).tads == n.tads
  {
    var m := n.Hear(ren, Mla(board));
    HearMla(n, ren, board);
    HearSpe(m, ren);
    assert [Mla(board), SPE][..2] == [Mla(board), SPE] + [] && [Mla(board), SPE][..1] == [Mla(board)];
    HearTwo(n, ren, Mla(board), SPE, []);
    assert [Mla(board)][1..] == [];
  }

  /** An interrupted poll call, at whatever byte: who is left talking. */
  lemma InterruptedPollTalkers(n: Node, ren: bool, board: nat, a: Address, k: nat)
    requires n.addr.Valid() && a.Encodable() && board <= 30 && board != a.pad && k <= |PollCall(board, a)|
    ensures n.HearAll(ren, PollCall(board, a)[..k]).tads <==> TalksAfter(n, a, k)
  {
    var call, end := PollCall(board, a), [Mla(board), SPE];
    HearUnl(n, ren);
    if k == 1 {
      assert call[..1] == [UNL] && [UNL][1..] == [];
    } else if k >= 2 {
      var rest := (Secondary(a) + end)[..k - 2];
      assert call[..k] == [UNL, Mta(a.pad)] + rest;
      HearTwo(n, ren, UNL, Mta(a.pad), rest);
      HearMta(n.Hear(ren, UNL), ren, a.pad);
      if k == 2 {
        assert rest == [];
      } else {
        var j := k - 2 - |Secondary(a)|;
        var m := PollCallTalker(n, ren, a);
        assert rest == Secondary(a) + end[..j];
        HearSecondary(n.Hear(ren, UNL).Hear(ren, Mta(a.pad)), ren, a, end[..j]);
        PollTail(m, ren, board, j);
      }
    }
  }

  lemma {:induction false} HearAppend(n: Node, ren: bool, a: seq<byte>, b: seq<byte>)
    ensures n.HearAll(ren, a + b) == n.HearAll(ren, a).HearAll(ren, b)
    decreases |a|
  {
    if a == [] {
      assert a + b == b;
    } else {
      assert (a + b)[1..] == a[1..] + b;
      HearAppend(n.Hear(ren, a[0]), ren, a[1..], b);
    }
  }
}
