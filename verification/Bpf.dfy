/** The packet-filter interpreter and its two hand-assembled programs
  * (collector/src/collector/discovery/bpf.py). Jump counts are unsigned, as the kernel has them.
  */
module Bpf {
  import opened Common
  import opened Bytes

  datatype Insn = Insn(code: nat, jt: nat, jf: nat, k: nat)

  type Program = seq<Insn>

  const LDH: nat := 0x28
  const LDB: nat := 0x30
  const LDH_X: nat := 0x48
  const LDXB: nat := 0xB1
  const JEQ: nat := 0x15
  const JSET: nat := 0x45
  const RET: nat := 0x06

  const IGMP: Program := [
    Insn(0x28, 0, 0, 12),      // ethertype
    Insn(0x15, 0, 3, 0x0800),  // IPv4, else drop
    Insn(0x30, 0, 0, 23),      // IP protocol
    Insn(0x15, 0, 1, 2),       // IGMP, else drop
    Insn(0x06, 0, 0, 0xFFFF),
    Insn(0x06, 0, 0, 0)
  ]

  const DHCP_SERVER_PORT: Program := [
    Insn(0x28, 0, 0, 12),
    Insn(0x15, 0, 10, 0x0800),
    Insn(0x30, 0, 0, 23),
    Insn(0x15, 0, 8, 17),
    Insn(0x28, 0, 0, 20),
    Insn(0x45, 6, 0, 0x1FFF),  // a later fragment is dropped
    Insn(0xB1, 0, 0, 14),      // x = IP header length
    Insn(0x48, 0, 0, 14),      // UDP source port
    Insn(0x15, 2, 0, 67),
    Insn(0x48, 0, 0, 16),      // UDP destination port
    Insn(0x15, 0, 1, 67),
    Insn(0x06, 0, 0, 0xFFFF),
    Insn(0x06, 0, 0, 0)
  ]

  /** The filter's answer, or the opcode it does not know. */
  datatype Verdict = Answer(accept: bool) | Unsupported(code: nat)

  predicate Jumps(i: Insn) {
    i.code == JEQ || i.code == JSET
  }

  function Taken(i: Insn, a: nat): nat {
    if (if i.code == JEQ then a == i.k else And(a, i.k) != 0) then i.jt else i.jf
  }

  /** How a load changes the registers, or None when it reads past the frame. */
  function Load(i: Insn, f: seq<Byte>, a: nat, x: nat): Option<(nat, nat)> {
    if i.code == LDH then if i.k + 2 > |f| then None else Some((Be16(f, i.k), x))
    else if i.code == LDB then if i.k + 1 > |f| then None else Some((f[i.k] as nat, x))
    else if i.code == LDH_X then if x + i.k + 2 > |f| then None else Some((Be16(f, x + i.k), x))
    else if i.code == LDXB then if i.k + 1 > |f| then None else Some((a, And(f[i.k], 0x0F) * 4))
    else None
  }

  predicate Loads(i: Insn) {
    i.code == LDH || i.code == LDB || i.code == LDH_X || i.code == LDXB
  }

  /** The meaning of a program from a given instruction and register contents. */
  function Exec(p: Program, f: seq<Byte>, a: nat, x: nat, pc: nat): Verdict
    decreases |p| - pc
  {
    if pc >= |p| then Answer(false)
    else
      var i := p[pc];
      if Loads(i) then
        var r := Load(i, f, a, x);
        if r.None? then Answer(false) else Exec(p, f, r.value.0, r.value.1, pc + 1)
      else if Jumps(i) then Exec(p, f, a, x, pc + 1 + Taken(i, a))
      else if i.code == RET then Answer(i.k != 0)
      else Unsupported(i.code)
  }

  /** The interpreter loop. It ends on every program: each round moves the program counter on. */
  method Run(program: Program, frame: seq<Byte>) returns (v: Verdict)
    ensures v == Exec(program, frame, 0, 0, 0)
  {
    var a: nat, x: nat, pc: nat := 0, 0, 0;
    while 0 <= pc < |program|
      invariant Exec(program, frame, a, x, pc) == Exec(program, frame, 0, 0, 0)
      decreases |program| - pc
    {
      var i := program[pc];
      if i.code == 0x28 {
        if i.k + 2 > |frame| {
          return Answer(false);
        }
        a := Be16(frame, i.k);
      } else if i.code == 0x30 {
        if i.k + 1 > |frame| {
          return Answer(false);
        }
        a := frame[i.k];
      } else if i.code == 0x48 {
        var off := x + i.k;
        if off + 2 > |frame| {
          return Answer(false);
        }
        a := Be16(frame, off);
      } else if i.code == 0xB1 {
        if i.k + 1 > |frame| {
          return Answer(false);
        }
        x := And(frame[i.k], 0x0F) * 4;
      } else if i.code == 0x15 {
        pc := pc + 1 + (if a == i.k then i.jt else i.jf);
        continue;
      } else if i.code == 0x45 {
        pc := pc + 1 + (if And(a, i.k) != 0 then i.jt else i.jf);
        continue;
      } else if i.code == 0x06 {
        return Answer(i.k != 0);
      } else {
        return Unsupported(i.code);
      }
      pc := pc + 1;
    }
    return Answer(false);
  }

  // --- what the two programs accept -------------------------------------------------------

  predicate IsIgmpFrame(f: seq<Byte>) {
    |f| >= 24 && Be16(f, 12) == 0x0800 && f[23] == 2
  }

  /** IPv4, UDP, not a later fragment, and port 67 on either side where the header length says. */
  predicate IsDhcpServerFrame(f: seq<Byte>) {
    && |f| >= 24 && Be16(f, 12) == 0x0800 && f[23] == 17
    && Be16(f, 20) % 0x2000 == 0
    && var udp := 14 + f[14] % 16 * 4;
       && udp + 2 <= |f|
       && (Be16(f, udp) == 67 || (udp + 4 <= |f| && Be16(f, udp + 2) == 67))
  }

  lemma LoadStep(p: Program, f: seq<Byte>, a: nat, x: nat, pc: nat)
    requires pc < |p| && Loads(p[pc])
    ensures Exec(p, f, a, x, pc)
            == var r := Load(p[pc], f, a, x);
               if r.None? then Answer(false) else Exec(p, f, r.value.0, r.value.1, pc + 1)
  {
  }

  lemma JumpStep(p: Program, f: seq<Byte>, a: nat, x: nat, pc: nat)
    requires pc < |p| && Jumps(p[pc])
    ensures Exec(p, f, a, x, pc) == Exec(p, f, a, x, pc + 1 + Taken(p[pc], a))
  {
  }

  lemma RetStep(p: Program, f: seq<Byte>, a: nat, x: nat, pc: nat)
    requires pc < |p| && p[pc].code == RET
    ensures Exec(p, f, a, x, pc) == Answer(p[pc].k != 0)
  {
  }

  /** What every load reads: one byte, or two as a big-endian number, at its offset, which one of the four
    * takes from x; it is refused exactly when they are not all in the frame. The last one loads four
    * times the low half of a byte into x.
    */
  lemma LoadIs(i: Insn, f: seq<Byte>, a: nat, x: nat)
    requires Loads(i)
    ensures var at := if i.code == 0x48 then x + i.k else i.k;
            var size := if i.code == 0x28 || i.code == 0x48 then 2 else 1;
            var r := Load(i, f, a, x);
            && (r.Some? <==> at + size <= |f|)
            && (r.Some? ==>
                  r.value == if i.code == 0xB1 then (a, 4 * (f[at] % 16))
                             else if size == 2 then ((f[at] as nat) * 256 + f[at + 1], x)
                             else (f[at] as nat, x))
  {
    if i.code == 0xB1 && i.k < |f| {
      LengthMask(f[i.k]);
    }
    hide And;
  }

  /** A program that runs off its end drops the frame, and one with any other opcode than the seven is told
    * so.
    */
  lemma Stops(p: Program, f: seq<Byte>, a: nat, x: nat, pc: nat)
    ensures pc >= |p| ==> Exec(p, f, a, x, pc) == Answer(false)
    ensures pc < |p| && p[pc].code !in {0x28, 0x30, 0x48, 0xB1, 0x15, 0x45, 0x06} ==>
              Exec(p, f, a, x, pc) == Unsupported(p[pc].code)
  {
  }

  /** The IGMP program accepts exactly the IPv4 frames of protocol 2, whatever their length. */
  lemma IgmpProgram(f: seq<Byte>)
    ensures Exec(IGMP, f, 0, 0, 0) == Answer(IsIgmpFrame(f))
  {
    hide Exec;
    LoadStep(IGMP, f, 0, 0, 0);
    if |f| >= 14 {
      var et := Be16(f, 12);
      JumpStep(IGMP, f, et, 0, 1);
      if et == 0x0800 {
        LoadStep(IGMP, f, et, 0, 2);
        if |f| >= 24 {
          JumpStep(IGMP, f, f[23], 0, 3);
          RetStep(IGMP, f, f[23], 0, 4);
          RetStep(IGMP, f, f[23], 0, 5);
        }
      } else {
        RetStep(IGMP, f, et, 0, 5);
      }
    }
  }

  lemma FragmentMask(a: nat)
    ensures And(a, 0x1FFF) == a % 0x2000
  {
    AndOnes(a, 13);
    assert Pow2(13) == 0x2000 by {
      assert Pow2(4) == 16;
      assert Pow2(8) == 256;
      assert Pow2(12) == 4096;
    }
  }

  lemma LengthMask(b: Byte)
    ensures And(b, 0x0F) == b % 16
  {
    AndOnes(b, 4);
    assert Pow2(4) == 16;
  }

  /** From the port loads on: x holds the header length. */
  lemma PortChecks(f: seq<Byte>, a: nat, x: nat)
    ensures Exec(DHCP_SERVER_PORT, f, a, x, 7)
            == Answer(x + 16 <= |f| && (Be16(f, x + 14) == 67 || (x + 18 <= |f| && Be16(f, x + 16) == 67)))
  {
    hide Exec;
    var p := DHCP_SERVER_PORT;
    LoadStep(p, f, a, x, 7);
    if x + 16 <= |f| {
      var sport := Be16(f, x + 14);
      JumpStep(p, f, sport, x, 8);
      if sport == 67 {
        RetStep(p, f, sport, x, 11);
      } else {
        LoadStep(p, f, sport, x, 9);
        if x + 18 <= |f| {
          var dport := Be16(f, x + 16);
          JumpStep(p, f, dport, x, 10);
          RetStep(p, f, dport, x, 11);
          RetStep(p, f, dport, x, 12);
        }
      }
    }
  }

  /** From the fragment check on, for a frame that reaches past the IP protocol field. */
  lemma FragmentCheck(f: seq<Byte>, a: nat)
    requires |f| >= 24
    ensures var udp := 14 + f[14] % 16 * 4;
            Exec(DHCP_SERVER_PORT, f, a, 0, 4)
            == Answer(Be16(f, 20) % 0x2000 == 0 && udp + 2 <= |f|
                      && (Be16(f, udp) == 67 || (udp + 4 <= |f| && Be16(f, udp + 2) == 67)))
  {
    hide Exec, And;
    var p := DHCP_SERVER_PORT;
    LoadStep(p, f, a, 0, 4);
    var frag := Be16(f, 20);
    JumpStep(p, f, frag, 0, 5);
    FragmentMask(frag);
    if frag % 0x2000 == 0 {
      LoadStep(p, f, frag, 0, 6);
      LengthMask(f[14]);
      PortChecks(f, frag, f[14] % 16 * 4);
    } else {
      RetStep(p, f, frag, 0, 12);
    }
  }

  /** The DHCP program accepts exactly its intended frames, whatever their length. */
  lemma {:induction false} DhcpProgram(f: seq<Byte>)
    ensures Exec(DHCP_SERVER_PORT, f, 0, 0, 0) == Answer(IsDhcpServerFrame(f))
  {
    hide Exec, And;
    var p := DHCP_SERVER_PORT;
    LoadStep(p, f, 0, 0, 0);
    if |f| >= 14 {
      var et := Be16(f, 12);
      JumpStep(p, f, et, 0, 1);
      if et == 0x0800 {
        LoadStep(p, f, et, 0, 2);
        if |f| >= 24 {
          JumpStep(p, f, f[23], 0, 3);
          if f[23] == 17 {
            FragmentCheck(f, f[23]);
          } else {
            RetStep(p, f, f[23], 0, 12);
          }
        }
      } else {
        RetStep(p, f, et, 0, 12);
      }
    }
  }
}
