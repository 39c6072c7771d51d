/** What kernel/exec.c reads of an executable: the structures of kernel/elf.h, and the image that
  * the program headers describe.
  */
module Elf {
  import opened Common
  import opened Bytes

  const EHSIZE := 64                   // sizeof(struct elf_header)
  const PHSIZE := 56                   // sizeof(struct prog_header)
  const ELF_MAGIC := 0x464C_457F
  const PT_LOAD := 1

  // ---- the structures --------------------------------------------------------------------

  datatype ElfHeader = ElfHeader(
    magic: nat, ident: seq<Byte>, typ: nat, machine: nat, version: nat, entry: nat, phOff: nat, shOff: nat,
    flags: nat, ehSize: nat, phEntrySize: nat, phNum: nat, shEntrySize: nat, shNum: nat, shStrNdx: nat)

  datatype ProgHeader = ProgHeader(
    typ: nat, flags: nat, offset: nat, vaddr: nat, paddr: nat, fileSz: nat, memSz: nat, align: nat)

  predicate ElfFits(h: ElfHeader) {
    && h.magic < Pow256(4) && |h.ident| == 12 && h.typ < Pow256(2) && h.machine < Pow256(2) && h.version < Pow256(4)
    && h.entry < Pow256(8) && h.phOff < Pow256(8) && h.shOff < Pow256(8) && h.flags < Pow256(4)
    && h.ehSize < Pow256(2) && h.phEntrySize < Pow256(2) && h.phNum < Pow256(2) && h.shEntrySize < Pow256(2)
    && h.shNum < Pow256(2) && h.shStrNdx < Pow256(2)
  }

  predicate ProgFits(p: ProgHeader) {
    && p.typ < Pow256(4) && p.flags < Pow256(4) && p.offset < Pow256(8) && p.vaddr < Pow256(8) && p.paddr < Pow256(8)
    && p.fileSz < Pow256(8) && p.memSz < Pow256(8) && p.align < Pow256(8)
  }

  function EncodeElf(h: ElfHeader): (s: seq<Byte>)
    requires ElfFits(h)
    ensures |s| == EHSIZE
  {
    ToLE(h.magic, 4) + h.ident + ToLE(h.typ, 2) + ToLE(h.machine, 2) + ToLE(h.version, 4) + ToLE(h.entry, 8)
    + ToLE(h.phOff, 8) + ToLE(h.shOff, 8) + ToLE(h.flags, 4) + ToLE(h.ehSize, 2) + ToLE(h.phEntrySize, 2)
    + ToLE(h.phNum, 2) + ToLE(h.shEntrySize, 2) + ToLE(h.shNum, 2) + ToLE(h.shStrNdx, 2)
  }

  function EncodeProg(p: ProgHeader): (s: seq<Byte>)
    requires ProgFits(p)
    ensures |s| == PHSIZE
  {
    ToLE(p.typ, 4) + ToLE(p.flags, 4) + ToLE(p.offset, 8) + ToLE(p.vaddr, 8) + ToLE(p.paddr, 8)
    + ToLE(p.fileSz, 8) + ToLE(p.memSz, 8) + ToLE(p.align, 8)
  }

  function DecodeElf(s: seq<Byte>): ElfHeader
    requires |s| == EHSIZE
  {
    ElfHeader(FromLE(s[0..4]), s[4..16], FromLE(s[16..18]), FromLE(s[18..20]), FromLE(s[20..24]), FromLE(s[24..32]),
              FromLE(s[32..40]), FromLE(s[40..48]), FromLE(s[48..52]), FromLE(s[52..54]), FromLE(s[54..56]),
              FromLE(s[56..58]), FromLE(s[58..60]), FromLE(s[60..62]), FromLE(s[62..64]))
  }

  function DecodeProg(s: seq<Byte>): (p: ProgHeader)
    requires |s| == PHSIZE
    ensures p.vaddr < U64 && p.memSz < U64 && p.offset < U64
  {
    Limits();
    ProgHeader(FromLE(s[0..4]), FromLE(s[4..8]), FromLE(s[8..16]), FromLE(s[16..24]), FromLE(s[24..32]),
               FromLE(s[32..40]), FromLE(s[40..48]), FromLE(s[48..56]))
  }

  /** The last field of the first bytes of s, and what is before it. */
  lemma Peel(s: seq<Byte>, p: seq<Byte>, x: seq<Byte>)
    requires |p| + |x| <= |s| && s[..|p| + |x|] == p + x
    ensures s[..|p|] == p && s[|p|..|p| + |x|] == x
  {
    assert s[..|p|] == s[..|p| + |x|][..|p|];
    assert s[|p|..|p| + |x|] == s[..|p| + |x|][|p|..];
  }

  lemma ElfRoundTrip(h: ElfHeader)
    requires ElfFits(h)
    ensures DecodeElf(EncodeElf(h)) == h
  {
    hide ToLE, FromLE, Pow256;
    var s := EncodeElf(h);
    LERoundTrip(h.magic, 4);
    LERoundTrip(h.typ, 2);
    LERoundTrip(h.machine, 2);
    LERoundTrip(h.version, 4);
    LERoundTrip(h.entry, 8);
    LERoundTrip(h.phOff, 8);
    LERoundTrip(h.shOff, 8);
    LERoundTrip(h.flags, 4);
    LERoundTrip(h.ehSize, 2);
    LERoundTrip(h.phEntrySize, 2);
    LERoundTrip(h.phNum, 2);
    LERoundTrip(h.shEntrySize, 2);
    LERoundTrip(h.shNum, 2);
    LERoundTrip(h.shStrNdx, 2);
    var p1 := ToLE(h.magic, 4);
    var p2 := p1 + h.ident;
    var p3 := p2 + ToLE(h.typ, 2);
    var p4 := p3 + ToLE(h.machine, 2);
    var p5 := p4 + ToLE(h.version, 4);
    var p6 := p5 + ToLE(h.entry, 8);
    var p7 := p6 + ToLE(h.phOff, 8);
    var p8 := p7 + ToLE(h.shOff, 8);
    var p9 := p8 + ToLE(h.flags, 4);
    var p10 := p9 + ToLE(h.ehSize, 2);
    var p11 := p10 + ToLE(h.phEntrySize, 2);
    var p12 := p11 + ToLE(h.phNum, 2);
    var p13 := p12 + ToLE(h.shEntrySize, 2);
    var p14 := p13 + ToLE(h.shNum, 2);
    assert s[..64] == p14 + ToLE(h.shStrNdx, 2);
    Peel(s, p14, ToLE(h.shStrNdx, 2));
    Peel(s, p13, ToLE(h.shNum, 2));
    Peel(s, p12, ToLE(h.shEntrySize, 2));
    Peel(s, p11, ToLE(h.phNum, 2));
    Peel(s, p10, ToLE(h.phEntrySize, 2));
    Peel(s, p9, ToLE(h.ehSize, 2));
    Peel(s, p8, ToLE(h.flags, 4));
    Peel(s, p7, ToLE(h.shOff, 8));
    Peel(s, p6, ToLE(h.phOff, 8));
    Peel(s, p5, ToLE(h.entry, 8));
    Peel(s, p4, ToLE(h.version, 4));
    Peel(s, p3, ToLE(h.machine, 2));
    Peel(s, p2, ToLE(h.typ, 2));
    Peel(s, p1, h.ident);
  }

  lemma ProgRoundTrip(p: ProgHeader)
    requires ProgFits(p)
    ensures DecodeProg(EncodeProg(p)) == p
  {
    hide ToLE, FromLE, Pow256;
    var s := EncodeProg(p);
    LERoundTrip(p.typ, 4);
    LERoundTrip(p.flags, 4);
    LERoundTrip(p.offset, 8);
    LERoundTrip(p.vaddr, 8);
    LERoundTrip(p.paddr, 8);
    LERoundTrip(p.fileSz, 8);
    LERoundTrip(p.memSz, 8);
    LERoundTrip(p.align, 8);
    var p1 := ToLE(p.typ, 4);
    var p2 := p1 + ToLE(p.flags, 4);
    var p3 := p2 + ToLE(p.offset, 8);
    var p4 := p3 + ToLE(p.vaddr, 8);
    var p5 := p4 + ToLE(p.paddr, 8);
    var p6 := p5 + ToLE(p.fileSz, 8);
    var p7 := p6 + ToLE(p.memSz, 8);
    assert s[..56] == p7 + ToLE(p.align, 8);
    Peel(s, p7, ToLE(p.align, 8));
    Peel(s, p6, ToLE(p.memSz, 8));
    Peel(s, p5, ToLE(p.fileSz, 8));
    Peel(s, p4, ToLE(p.paddr, 8));
    Peel(s, p3, ToLE(p.vaddr, 8));
    Peel(s, p2, ToLE(p.offset, 8));
    Peel(s, p1, ToLE(p.flags, 4));
  }

  // ---- the headers in a file -------------------------------------------------------------------

  /** The program header at an offset of the file; none if the file ends before it. */
  function HeaderAt(file: seq<Byte>, at: nat): (p: Option<ProgHeader>)
    ensures p.Some? ==> p.value.vaddr < U64 && p.value.memSz < U64 && p.value.offset < U64
  {
    if at + PHSIZE <= |file| then Some(DecodeProg(file[at..at + PHSIZE])) else None
  }

  function PhNum(file: seq<Byte>): nat
    requires |file| >= EHSIZE
  {
    DecodeElf(file[..EHSIZE]).phNum
  }

  function Headers(file: seq<Byte>): (hs: seq<Option<ProgHeader>>)
    requires |file| >= EHSIZE
    ensures |hs| == PhNum(file)
    ensures forall i ::
              0 <= i < |hs| ==> hs[i] == HeaderAt(file, (DecodeElf(file[..EHSIZE]).phOff + PHSIZE * i) % U64)
  {
    seq(PhNum(file), i requires 0 <= i => HeaderAt(file, (DecodeElf(file[..EHSIZE]).phOff + PHSIZE * i) % U64))
  }

  /** The file begins with the header h, and the headers ps stand where h says. */
  ghost predicate ElfOf(file: seq<Byte>, h: ElfHeader, ps: seq<ProgHeader>) {
    && ElfFits(h) && EHSIZE <= |file| < U64 && file[..EHSIZE] == EncodeElf(h)
    && |ps| == h.phNum && h.phOff + PHSIZE * |ps| <= |file|
    && (forall i :: 0 <= i < |ps| ==> ProgAt(file, h, ps[i], i))
  }

  ghost predicate ProgAt(file: seq<Byte>, h: ElfHeader, p: ProgHeader, i: nat) {
    && ProgFits(p) && h.phOff + PHSIZE * i + PHSIZE <= |file|
    && file[h.phOff + PHSIZE * i..h.phOff + PHSIZE * i + PHSIZE] == EncodeProg(p)
  }

  /** exec reads from such a file exactly these headers. */
  lemma HeadersBack(file: seq<Byte>, h: ElfHeader, ps: seq<ProgHeader>)
    requires ElfOf(file, h, ps)
    ensures (IsElf(file) <==> h.magic == 0x464C_457F) && PhNum(file) == h.phNum && |Headers(file)| == |ps|
    ensures forall i :: 0 <= i < |ps| ==> Headers(file)[i] == Some(ps[i])
  {
    hide EncodeElf, EncodeProg, DecodeElf, DecodeProg, ProgFits;
    ElfRoundTrip(h);
    forall i | 0 <= i < |ps| ensures Headers(file)[i] == Some(ps[i]) {
      assert ProgAt(file, h, ps[i], i);
      ProgRoundTrip(ps[i]);
      assert (h.phOff + PHSIZE * i) % U64 == h.phOff + PHSIZE * i;
    }
  }

  /** The magic number is that of the letters ELF after 0x7F. */
  lemma MagicBytes(file: seq<Byte>)
    requires |file| >= EHSIZE
    ensures IsElf(file) <==> file[..4] == [0x7F, 0x45, 0x4C, 0x46]
  {
    var s := file[..EHSIZE][0..4];
    assert s == file[..4];
    var s1 := s[1..];
    var s2 := s1[1..];
    var s3 := s2[1..];
    assert s3[1..] == [] && s3[0] == s[3] && s2[0] == s[2] && s1[0] == s[1];
    var a: int, b: int, c: int, d: int := s[0], s[1], s[2], s[3];
    assert FromLE(s3) == d && FromLE(s2) == c + 256 * d && FromLE(s1) == b + 256 * FromLE(s2);
    assert FromLE(s) == a + 256 * (b + 256 * (c + 256 * d));
    Digits(a, b, c, d);
  }

  lemma Digits(a: int, b: int, c: int, d: int)
    requires 0 <= a < 256 && 0 <= b < 256 && 0 <= c < 256 && 0 <= d < 256
    ensures a + 256 * (b + 256 * (c + 256 * d)) == 0x464C_457F <==> a == 0x7F && b == 0x45 && c == 0x4C && d == 0x46
  {
  }

  /** The tests that exec makes of a header. */
  predicate Loadable(file: seq<Byte>, h: Option<ProgHeader>) {
    && h.Some?
    && (h.value.typ == PT_LOAD ==>
          var s := h.value;
          && s.fileSz <= s.memSz && s.vaddr + s.memSz < U64 && 4096 <= s.vaddr && s.vaddr % 4096 == 0
          && (s.fileSz == 0 || s.offset + s.fileSz <= |file|))
  }

  predicate AllLoadable(file: seq<Byte>, hs: seq<Option<ProgHeader>>) {
    forall i :: 0 <= i < |hs| ==> Loadable(file, hs[i])
  }

  predicate IsElf(file: seq<Byte>) { |file| >= EHSIZE && DecodeElf(file[..EHSIZE]).magic == ELF_MAGIC }

  predicate Loads(h: Option<ProgHeader>) { h.Some? && h.value.typ == PT_LOAD }

  /** The size after a segment. */
  function Extended(sz: nat, h: Option<ProgHeader>): nat {
    if Loads(h) && h.value.vaddr + h.value.memSz > sz then h.value.vaddr + h.value.memSz else sz
  }

  /** The end of the highest segment, past the null page. */
  function Top(hs: seq<Option<ProgHeader>>): (t: nat)
    ensures t >= 4096
  {
    if hs == [] then 4096 else Extended(Top(hs[..|hs| - 1]), hs[|hs| - 1])
  }

  lemma {:induction false} TopMono(hs: seq<Option<ProgHeader>>, i: nat)
    requires i <= |hs|
    ensures Top(hs[..i]) <= Top(hs)
    ensures i < |hs| ==> Top(hs[..i + 1]) == Extended(Top(hs[..i]), hs[i])
    decreases |hs| - i
  {
    if i == |hs| {
      assert hs[..i] == hs;
    } else {
      assert hs[..i + 1][..i] == hs[..i];
      TopMono(hs, i + 1);
    }
  }

  predicate Covers(file: seq<Byte>, h: Option<ProgHeader>, a: nat) {
    Loads(h) && h.value.vaddr <= a < h.value.vaddr + h.value.fileSz && h.value.offset + (a - h.value.vaddr) < |file|
  }

  /** The byte at a in the image: from the file, by the last segment that covers it, or 0. */
  function SegByte(hs: seq<Option<ProgHeader>>, file: seq<Byte>, a: nat): Byte {
    if hs == [] then 0
    else
      var h := hs[|hs| - 1];
      if Covers(file, h, a) then file[h.value.offset + (a - h.value.vaddr)] else SegByte(hs[..|hs| - 1], file, a)
  }

  lemma {:induction false} PastTop(hs: seq<Option<ProgHeader>>, file: seq<Byte>, a: nat)
    requires Top(hs) <= a && AllLoadable(file, hs)
    ensures SegByte(hs, file, a) == 0
  {
    if hs != [] {
      assert Loadable(file, hs[|hs| - 1]);
      PastTop(hs[..|hs| - 1], file, a);
    }
  }

  // ---- what the headers mean ------------------------------------------------------------------------

  /** The top is the highest end of a segment, or 4096. */
  lemma {:induction false} TopMax(hs: seq<Option<ProgHeader>>)
    ensures forall i :: 0 <= i < |hs| && Loads(hs[i]) ==> hs[i].value.vaddr + hs[i].value.memSz <= Top(hs)
    ensures Top(hs) == 4096 ||
            exists i :: 0 <= i < |hs| && Loads(hs[i]) && hs[i].value.vaddr + hs[i].value.memSz == Top(hs)
  {
    if hs != [] {
      var n := |hs| - 1;
      TopMax(hs[..n]);
      if Top(hs) != 4096 && Top(hs) == Top(hs[..n]) {
        var i :| 0 <= i < n && Loads(hs[..n][i]) && hs[..n][i].value.vaddr + hs[..n][i].value.memSz == Top(hs);
        assert hs[i] == hs[..n][i];
      }
      forall i | 0 <= i < |hs| && Loads(hs[i]) ensures hs[i].value.vaddr + hs[i].value.memSz <= Top(hs) {
        if i < n { assert hs[..n][i] == hs[i]; }
      }
    }
  }

  /** A byte comes from the last segment that covers it. */
  lemma {:induction false} SegByteLast(hs: seq<Option<ProgHeader>>, file: seq<Byte>, a: nat, i: nat)
    requires i < |hs| && Covers(file, hs[i], a) && forall j :: i < j < |hs| ==> !Covers(file, hs[j], a)
    ensures SegByte(hs, file, a) == file[hs[i].value.offset + (a - hs[i].value.vaddr)]
    decreases |hs|
  {
    if i < |hs| - 1 { SegByteLast(hs[..|hs| - 1], file, a, i); }
  }

  lemma {:induction false} SegByteNone(hs: seq<Option<ProgHeader>>, file: seq<Byte>, a: nat)
    requires forall j :: 0 <= j < |hs| ==> !Covers(file, hs[j], a)
    ensures SegByte(hs, file, a) == 0
  {
    if hs != [] { SegByteNone(hs[..|hs| - 1], file, a); }
  }
}
