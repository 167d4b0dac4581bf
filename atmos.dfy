/**
 * The Dolby Atmos track-file writer and reader of AS_DCP_ATMOS.cpp.
 *
 * The writer (h__Writer) walks the lifecycle BEGIN, INIT, READY, RUNNING,
 * FINAL; each operation tests the state first. The metadata objects it fills
 * (the PrivateDCDataDescriptor and its single DolbyAtmosSubDescriptor) are
 * modelled as values it holds; the sub-descriptor list holds InstanceUIDs.
 * Code outside this file is modelled by its outcome, passed in as a parameter:
 * opening the file, writing the header, each essence packet and the footer,
 * looking a metadata object up in a header, and the random InstanceUID.
 */
module Atmos {
  import opened Common
  import MXF

  // ---------------------------------------------------------------------------
  // Constants and descriptors

  const ATMOS_PACKAGE_LABEL: string := "File Package: SMPTE-GC frame wrapping of Dolby ATMOS data"
  const ATMOS_DEF_LABEL: string := "Dolby ATMOS Data Track"
  const ATMOS_ESSENCE_CODING: UL :=
    [0x06, 0x0e, 0x2b, 0x34, 0x04, 0x01, 0x01, 0x05, 0x0e, 0x09, 0x06, 0x04, 0x00, 0x00, 0x00, 0x00]

  /** The edit rates a DC-data track may use: EditRate_24 ... EditRate_240, each over 1. */
  const ATMOS_EDIT_RATES: seq<Rational> := [
    Rational(24, 1), Rational(25, 1), Rational(30, 1), Rational(48, 1),
    Rational(50, 1), Rational(60, 1), Rational(96, 1), Rational(100, 1),
    Rational(120, 1), Rational(192, 1), Rational(200, 1), Rational(240, 1)]

  /** Rational's != compares numerator and denominator field by field: 48/2 is not 24/1. */
  predicate RateAllowed(r: Rational) {
    r == Rational(24, 1) || r == Rational(25, 1) || r == Rational(30, 1) || r == Rational(48, 1) ||
    r == Rational(50, 1) || r == Rational(60, 1) || r == Rational(96, 1) || r == Rational(100, 1) ||
    r == Rational(120, 1) || r == Rational(192, 1) || r == Rational(200, 1) || r == Rational(240, 1)
  }

  /** The allow-list has twelve distinct rates, and a rate passes the test exactly when it is one of them. */
  lemma RateAllowedIsList(r: Rational)
    ensures |ATMOS_EDIT_RATES| == 12
    ensures forall i, j :: 0 <= i < j < 12 ==> ATMOS_EDIT_RATES[i] != ATMOS_EDIT_RATES[j]
    ensures RateAllowed(r) <==> r in ATMOS_EDIT_RATES
    ensures RateAllowed(r) ==> r.Denominator == 1
  {
  }

  /** ASDCP::DCData::DCDataDescriptor. */
  datatype DCDataDescriptor = DCDataDescriptor(EditRate: Rational, ContainerDuration: uint32, DataEssenceCoding: UL)

  /** ASDCP::ATMOS::AtmosDescriptor: a DCDataDescriptor (base) with the Atmos fields. */
  datatype AtmosDescriptor = AtmosDescriptor(
    base: DCDataDescriptor,
    FirstFrame: uint32,
    MaxChannelCount: uint16,
    MaxObjectCount: uint16,
    AtmosID: UUID,
    AtmosVersion: uint8)

  /** The header metadata object MXF::PrivateDCDataDescriptor, in the fields this core uses. */
  datatype PrivateDCDataDescriptor = PrivateDCDataDescriptor(
    SampleRate: Rational,
    ContainerDuration: uint64,
    DataEssenceCoding: UL,
    SubDescriptors: seq<UUID>)

  /** The header metadata object MXF::DolbyAtmosSubDescriptor. */
  datatype DolbyAtmosSubDescriptor = DolbyAtmosSubDescriptor(
    InstanceUID: UUID,
    AtmosID: UUID,
    FirstFrame: uint32,
    MaxChannelCount: uint16,
    MaxObjectCount: uint16,
    AtmosVersion: uint8)

  /** Freshly made metadata objects; their construction is not part of this model, so every field starts at zero. */
  function NewDCDataDescriptor(): PrivateDCDataDescriptor {
    PrivateDCDataDescriptor(Rational(0, 0), 0, ZeroUL(), [])
  }

  function NewAtmosSubDescriptor(): DolbyAtmosSubDescriptor {
    DolbyAtmosSubDescriptor(ZeroUL(), ZeroUL(), 0, 0, 0, 0)
  }

  // ---------------------------------------------------------------------------
  // Copying descriptor fields into and out of the metadata objects

  /**
   * MD_to_DCData_DDesc: the 64-bit stored duration is cast to 32 bits, so a
   * duration that does not fit keeps only its low 32 bits.
   */
  function MDToDCDataDesc(md: PrivateDCDataDescriptor): (d: DCDataDescriptor)
    ensures d.EditRate == md.SampleRate && d.DataEssenceCoding == md.DataEssenceCoding
    ensures md.ContainerDuration <= 0xFFFF_FFFF ==> d.ContainerDuration == md.ContainerDuration
    ensures (md.ContainerDuration - d.ContainerDuration) % UINT32_MODULUS == 0
  {
    DCDataDescriptor(md.SampleRate, (md.ContainerDuration % UINT32_MODULUS) as uint32, md.DataEssenceCoding)
  }

  /** DCData_DDesc_to_MD: what it stores, MD_to_DCData_DDesc reads back; nothing else in the object changes. */
  function DCDataDescToMD(md: PrivateDCDataDescriptor, d: DCDataDescriptor): (r: PrivateDCDataDescriptor)
    ensures r.ContainerDuration <= 0xFFFF_FFFF && MDToDCDataDesc(r) == d
    ensures r.SubDescriptors == md.SubDescriptors
  {
    md.(SampleRate := d.EditRate, ContainerDuration := d.ContainerDuration, DataEssenceCoding := d.DataEssenceCoding)
  }

  /** MD_to_Atmos_ADesc: the base fields from the descriptor, the Atmos fields from the sub-descriptor. */
  function MDToAtmosDesc(md: PrivateDCDataDescriptor, sub: DolbyAtmosSubDescriptor): (a: AtmosDescriptor)
    ensures a.base == MDToDCDataDesc(md)
    ensures a.MaxChannelCount == sub.MaxChannelCount && a.MaxObjectCount == sub.MaxObjectCount
    ensures a.AtmosID == sub.AtmosID && a.AtmosVersion == sub.AtmosVersion && a.FirstFrame == sub.FirstFrame
  {
    AtmosDescriptor(MDToDCDataDesc(md), sub.FirstFrame, sub.MaxChannelCount, sub.MaxObjectCount, sub.AtmosID, sub.AtmosVersion)
  }

  /** Atmos_ADesc_to_MD: the sub-descriptor keeps its InstanceUID and takes the five Atmos fields. */
  function AtmosDescToMD(sub: DolbyAtmosSubDescriptor, a: AtmosDescriptor): (r: DolbyAtmosSubDescriptor)
    ensures r.InstanceUID == sub.InstanceUID
    ensures forall md: PrivateDCDataDescriptor :: MDToAtmosDesc(md, r) == a.(base := MDToDCDataDesc(md))
  {
    sub.(MaxChannelCount := a.MaxChannelCount, MaxObjectCount := a.MaxObjectCount,
         AtmosID := a.AtmosID, AtmosVersion := a.AtmosVersion, FirstFrame := a.FirstFrame)
  }

  /** Whatever both *_to_MD store, MD_to_Atmos_ADesc reads back unchanged. */
  lemma AtmosDescriptorRoundTrip(md: PrivateDCDataDescriptor, sub: DolbyAtmosSubDescriptor, a: AtmosDescriptor)
    ensures MDToAtmosDesc(DCDataDescToMD(md, a.base), AtmosDescToMD(sub, a)) == a
  {
    var md' := DCDataDescToMD(md, a.base);
    assert MDToDCDataDesc(md') == a.base;
  }

  /** Conversely, storing what was read leaves a metadata object as it was. */
  lemma MetadataRoundTrip(md: PrivateDCDataDescriptor, sub: DolbyAtmosSubDescriptor)
    requires md.ContainerDuration <= 0xFFFF_FFFF
    ensures DCDataDescToMD(md, MDToDCDataDesc(md)) == md
    ensures AtmosDescToMD(sub, MDToAtmosDesc(md, sub)) == sub
  {
  }

  /**
   * A stored duration above 32 bits is not read back: storing what was read
   * changes the metadata object.
   */
  lemma LongDurationIsTruncated(md: PrivateDCDataDescriptor)
    requires md.ContainerDuration > 0xFFFF_FFFF
    ensures MDToDCDataDesc(md).ContainerDuration < md.ContainerDuration
    ensures DCDataDescToMD(md, MDToDCDataDesc(md)) != md
  {
  }

  // ---------------------------------------------------------------------------
  // The writer's lifecycle

  datatype WriterState = ST_BEGIN | ST_INIT | ST_READY | ST_RUNNING | ST_FINAL {
    function Rank(): nat {
      match this
      case ST_BEGIN => 0
      case ST_INIT => 1
      case ST_READY => 2
      case ST_RUNNING => 3
      case ST_FINAL => 4
    }
  }

  /** Goto_*: move from `from` to `to`, or report RESULT_STATE and stay. */
  function Goto(s: WriterState, from: WriterState, to: WriterState): (r: (Result, WriterState))
    ensures r.0 == Ok <==> s == from
    ensures r.0 != Ok ==> r.0 == State && r.1 == s
    ensures r.0 == Ok ==> r.1 == to
  {
    if s != from then (State, s) else (Ok, to)
  }

  /** Every transition the writer makes goes one step forward: the lifecycle never goes back. */
  lemma WriterTransitionsGoForward(s: WriterState)
    ensures Goto(s, ST_BEGIN, ST_INIT).1.Rank() >= s.Rank()
    ensures Goto(s, ST_INIT, ST_READY).1.Rank() >= s.Rank()
    ensures Goto(s, ST_READY, ST_RUNNING).1.Rank() >= s.Rank()
    ensures Goto(s, ST_RUNNING, ST_FINAL).1.Rank() >= s.Rank()
    ensures forall from: WriterState, to: WriterState :: to.Rank() == from.Rank() + 1 ==> Goto(s, from, to).1.Rank() <= s.Rank() + 1
  {
  }

  /** The essence UL: the dictionary's PrivateDCDataEssence UL with its last byte set to 1. */
  function EssenceULFor(dictUL: UL): (u: UL)
    ensures u[..SMPTE_UL_LENGTH - 1] == dictUL[..SMPTE_UL_LENGTH - 1] && u[SMPTE_UL_LENGTH - 1] == 1
  {
    dictUL[..SMPTE_UL_LENGTH - 1] + [1]
  }

  /** The ULs the writer takes from its dictionary (AtmosSMPTEDict is not part of this model). */
  datatype Dictionary = Dictionary(PrivateDCDataEssence: UL, PrivateDCDataWrappingFrame: UL, DataDataDef: UL)

  /** The arguments of the WriteASDCPHeader call. */
  datatype HeaderRequest = HeaderRequest(
    packageLabel: string,
    wrappingUL: UL,
    defLabel: string,
    essenceUL: UL,
    dataDefUL: UL,
    editRate: Rational,
    tcFrameRate: uint32)

  /** A signed 32-bit value stored into an unsigned 32-bit one. */
  function I32ToU32(x: int32): (r: uint32)
    ensures x >= 0 ==> r == x
    ensures x < 0 ==> r == x + UINT32_MODULUS
  {
    x % UINT32_MODULUS
  }

  // ---------------------------------------------------------------------------
  // WriteFrame as a function of the writer's frame state

  /** The part of the writer that WriteFrame reads and changes. */
  datatype FrameLog = FrameLog(state: WriterState, streamOffset: uint64, framesWritten: uint32, index: seq<MXF.IndexEntry>)

  /** What the packet write (WriteEKLVPacket) returned, and how many bytes it added to the stream. */
  datatype Packet = Packet(result: Result, length: uint64)

  /** The index entry WriteFrame pushes: all zeros but the stream offset. */
  function EntryAt(offset: uint64): (e: MXF.IndexEntry)
    ensures e == MXF.DefaultIndexEntry().(StreamOffset := offset)
  {
    MXF.IndexEntry(0, 0, 0, offset)
  }

  function WriteFrameSpec(w: FrameLog, p: Packet): (r: (Result, FrameLog))
    ensures r.1.state == if w.state == ST_READY then ST_RUNNING else w.state
    ensures r.0 == p.result
    ensures p.result.Success() ==>
      r.1.index == w.index + [EntryAt(w.streamOffset)] &&
      r.1.framesWritten == AddU32(w.framesWritten, 1) &&
      r.1.streamOffset == AddU64(w.streamOffset, p.length)
    ensures !p.result.Success() ==> r.1 == w.(state := r.1.state)
  {
    var state := if w.state == ST_READY then ST_RUNNING else w.state;
    if p.result.Success() then
      (p.result, FrameLog(state, AddU64(w.streamOffset, p.length), AddU32(w.framesWritten, 1),
                          w.index + [EntryAt(w.streamOffset)]))
    else (p.result, w.(state := state))
  }

  /**
   * WriteFrame tests no state but READY: in any other state a successful
   * packet write still adds an index entry, after Finalize and before
   * SetSourceStream alike.
   */
  lemma WriteFrameTestsOnlyReady(w: FrameLog, p: Packet)
    requires w.state != ST_READY && p.result.Success()
    ensures var r := WriteFrameSpec(w, p);
      r.0 == p.result && r.1.state == w.state && |r.1.index| == |w.index| + 1
  {
  }

  /** A run of WriteFrame calls; the caller goes on after a failed one. */
  function WriteFrames(w: FrameLog, ps: seq<Packet>): FrameLog
    decreases |ps|
  {
    if ps == [] then w else WriteFrames(WriteFrameSpec(w, ps[0]).1, ps[1..])
  }

  /** The number of bytes a run of packets adds to the stream. */
  function TotalLength(ps: seq<Packet>): nat
    decreases |ps|
  {
    if ps == [] then 0 else ps[0].length + TotalLength(ps[1..])
  }

  predicate AllWritten(ps: seq<Packet>) {
    forall i :: 0 <= i < |ps| ==> ps[i].result.Success()
  }

  lemma TotalLengthPrefix(ps: seq<Packet>, i: nat)
    requires 0 < i <= |ps|
    ensures TotalLength(ps[..i]) == ps[0].length + TotalLength(ps[1..][..i - 1])
  {
    assert ps[..i][0] == ps[0];
    assert ps[..i][1..] == ps[1..][..i - 1];
  }

  lemma {:induction false} TotalLengthGrows(ps: seq<Packet>, i: nat, j: nat)
    requires i <= j <= |ps|
    ensures TotalLength(ps[..i]) <= TotalLength(ps[..j])
    ensures (forall k :: i <= k < j ==> ps[k].length > 0) ==> (i < j ==> TotalLength(ps[..i]) < TotalLength(ps[..j]))
    decreases |ps|
  {
    if i > 0 {
      TotalLengthPrefix(ps, i);
      TotalLengthPrefix(ps, j);
      TotalLengthGrows(ps[1..], i - 1, j - 1);
    } else if j > 0 {
      assert ps[..i] == [];
      TotalLengthPrefix(ps, j);
      TotalLengthGrows(ps[1..], 0, j - 1);
      assert ps[1..][..0] == [];
    }
  }

  /**
   * n successful writes push n index entries in write order: the i-th new
   * entry holds the stream offset before the i-th write, i.e. the starting
   * offset plus the lengths of the packets before it; and m_FramesWritten
   * grows by n (while nothing wraps).
   */
  lemma {:induction false} IndexRecordsOffsetsInOrder(w: FrameLog, ps: seq<Packet>)
    requires AllWritten(ps)
    requires w.streamOffset + TotalLength(ps) < UINT64_MODULUS && w.framesWritten + |ps| < UINT32_MODULUS
    ensures var r := WriteFrames(w, ps);
      |r.index| == |w.index| + |ps| && r.index[..|w.index|] == w.index &&
      r.framesWritten == w.framesWritten + |ps| &&
      r.streamOffset == w.streamOffset + TotalLength(ps) &&
      forall k :: |w.index| <= k < |r.index| ==>
        r.index[k] == EntryAt(r.index[k].StreamOffset) &&
        r.index[k].StreamOffset == w.streamOffset + TotalLength(ps[..k - |w.index|])
    decreases |ps|
  {
    if ps != [] {
      var w1 := WriteFrameSpec(w, ps[0]).1;
      assert w1.index == w.index + [EntryAt(w.streamOffset)];
      assert w1.streamOffset == w.streamOffset + ps[0].length;
      assert AllWritten(ps[1..]) by {
        forall i | 0 <= i < |ps[1..]| ensures ps[1..][i].result.Success() {
          assert ps[1..][i] == ps[i + 1];
        }
      }
      IndexRecordsOffsetsInOrder(w1, ps[1..]);
      var r := WriteFrames(w, ps);
      assert r == WriteFrames(w1, ps[1..]);
      assert r.index[..|w1.index|] == w1.index;
      assert r.index[..|w.index|] == w1.index[..|w.index|];
      forall k | |w.index| <= k < |r.index|
        ensures r.index[k] == EntryAt(r.index[k].StreamOffset)
        ensures r.index[k].StreamOffset == w.streamOffset + TotalLength(ps[..k - |w.index|])
      {
        if k == |w.index| {
          assert ps[..0] == [];
          assert r.index[k] == w1.index[k];
        } else {
          TotalLengthPrefix(ps, k - |w.index|);
        }
      }
      assert |r.index| == |w.index| + |ps|;
      assert r.framesWritten == w.framesWritten + |ps|;
      assert r.streamOffset == w.streamOffset + TotalLength(ps);
    }
  }

  /** With non-empty packets, the offsets recorded by a run of successful writes strictly increase. */
  lemma IndexOffsetsIncrease(w: FrameLog, ps: seq<Packet>, i: nat, j: nat)
    requires AllWritten(ps) && forall k :: 0 <= k < |ps| ==> ps[k].length > 0
    requires w.streamOffset + TotalLength(ps) < UINT64_MODULUS && w.framesWritten + |ps| < UINT32_MODULUS
    requires i < j < |ps|
    ensures var r := WriteFrames(w, ps);
      |r.index| == |w.index| + |ps| && r.index[|w.index| + i].StreamOffset < r.index[|w.index| + j].StreamOffset
  {
    IndexRecordsOffsetsInOrder(w, ps);
    TotalLengthGrows(ps, i, j);
    TotalLengthGrows(ps, j, |ps|);
    assert ps[..|ps|] == ps;
  }

  // ---------------------------------------------------------------------------
  // The writer

  /** The public writer's WriterInfo, in the one field this core tests. */
  datatype LabelSet = LS_MXF_UNKNOWN | LS_MXF_INTEROP | LS_MXF_SMPTE
  datatype WriterInfo = WriterInfo(LabelSetType: LabelSet)

  /** The sub-descriptor loop of OpenWrite: each new Dolby Atmos sub-descriptor gets the
      caller's instance UID, which is appended both to the writer's list and to the data
      descriptor's SubDescriptors batch. */
  method LinkSubDescriptors(list0: seq<UUID>, instanceUID: UUID)
    returns (descriptor: PrivateDCDataDescriptor, sub: DolbyAtmosSubDescriptor, list: seq<UUID>)
    ensures list == list0 + [instanceUID]
    ensures descriptor == NewDCDataDescriptor().(SubDescriptors := [instanceUID])
    ensures sub == NewAtmosSubDescriptor().(InstanceUID := instanceUID)
  {
    descriptor := NewDCDataDescriptor();
    sub := NewAtmosSubDescriptor();
    var subDescriptors := [sub];
    list := list0;
    for i := 0 to |subDescriptors|
      invariant list == list0 + seq(i, j => instanceUID)
      invariant descriptor == NewDCDataDescriptor().(SubDescriptors := seq(i, j => instanceUID))
      invariant sub == if i == 0 then NewAtmosSubDescriptor() else subDescriptors[i - 1].(InstanceUID := instanceUID)
    {
      sub := subDescriptors[i].(InstanceUID := instanceUID);
      assert seq(i + 1, j => instanceUID) == seq(i, j => instanceUID) + [sub.InstanceUID];
      list := list + [sub.InstanceUID];
      descriptor := descriptor.(SubDescriptors := descriptor.SubDescriptors + [sub.InstanceUID]);
    }
    assert seq(1, j => instanceUID) == [instanceUID];
  }

  /** h__Writer. */
  class Writer {
    const dict: Dictionary
    var info: WriterInfo
    var state: WriterState
    var headerSize: uint32
    var essenceDescriptor: Option<PrivateDCDataDescriptor>
    var essenceSubDescriptor: Option<DolbyAtmosSubDescriptor>
    /** m_EssenceSubDescriptorList, by InstanceUID. */
    var essenceSubDescriptorList: seq<UUID>
    var ddesc: DCDataDescriptor
    var adesc: AtmosDescriptor
    var essenceUL: UL
    var streamOffset: uint64
    var framesWritten: uint32
    /** The index entries pushed to the footer (m_FooterPart), in order. */
    var index: seq<MXF.IndexEntry>
    /** The WriteASDCPHeader call, once made. */
    var header: Option<HeaderRequest>
    /** The index handed to WriteASDCPFooter, once called. */
    var footer: Option<seq<MXF.IndexEntry>>

    /**
     * Once opened, the descriptor lists exactly the one sub-descriptor;
     * once READY, the essence UL and the header are fixed; a footer is
     * written only in FINAL; m_FramesWritten counts the index entries.
     */
    ghost predicate Valid()
      reads this
    {
      (state == ST_BEGIN ==> essenceSubDescriptorList == []) &&
      (state != ST_BEGIN ==>
        essenceDescriptor.Some? && essenceSubDescriptor.Some? &&
        essenceDescriptor.value.SubDescriptors == [essenceSubDescriptor.value.InstanceUID] &&
        essenceSubDescriptorList == [essenceSubDescriptor.value.InstanceUID]) &&
      (state.Rank() >= ST_READY.Rank() ==>
        essenceUL == EssenceULFor(dict.PrivateDCDataEssence) && header.Some? &&
        header.value.essenceUL == essenceUL) &&
      (footer.Some? ==> state == ST_FINAL) &&
      framesWritten == |index| % UINT32_MODULUS
    }

    function Frames(): FrameLog
      reads this
    {
      FrameLog(state, streamOffset, framesWritten, index)
    }

    constructor (dict: Dictionary)
      ensures Valid() && this.dict == dict && state == ST_BEGIN
      ensures essenceSubDescriptor == None && essenceDescriptor == None && essenceSubDescriptorList == []
      ensures essenceUL == ZeroUL() && index == [] && framesWritten == 0 && streamOffset == 0
      ensures header == None && footer == None
    {
      this.dict := dict;
      info := WriterInfo(LS_MXF_UNKNOWN);
      state := ST_BEGIN;
      headerSize := 0;
      essenceDescriptor := None;
      essenceSubDescriptor := None;
      essenceSubDescriptorList := [];
      ddesc := DCDataDescriptor(Rational(0, 0), 0, ZeroUL());
      adesc := AtmosDescriptor(ddesc, 0, 0, 0, ZeroUL(), 0);
      essenceUL := ZeroUL();
      streamOffset := 0;
      framesWritten := 0;
      index := [];
      header := None;
      footer := None;
    }

    /**
     * OpenWrite: only from BEGIN; fileResult is what opening the file
     * returned and instanceUID the random value given to the sub-descriptor.
     */
    method OpenWrite(fileResult: Result, headerSize: uint32, ADesc: AtmosDescriptor, instanceUID: UUID) returns (result: Result)
      requires Valid()
      modifies this`headerSize, this`essenceDescriptor, this`essenceSubDescriptor, this`essenceSubDescriptorList
      modifies this`state, this`adesc
      ensures Valid()
      ensures old(state) != ST_BEGIN ==> result == State && Frames() == old(Frames()) && unchanged(this)
      ensures old(state) == ST_BEGIN && !fileResult.Success() ==> result == fileResult && unchanged(this)
      ensures old(state) == ST_BEGIN && fileResult.Success() ==>
        result == Ok && state == ST_INIT && this.headerSize == headerSize &&
        adesc == ADesc.(base := ADesc.base.(DataEssenceCoding := ATMOS_ESSENCE_CODING)) &&
        essenceDescriptor == Some(NewDCDataDescriptor().(SubDescriptors := [instanceUID])) &&
        essenceSubDescriptor == Some(AtmosDescToMD(NewAtmosSubDescriptor().(InstanceUID := instanceUID), adesc)) &&
        essenceSubDescriptorList == [instanceUID]
    {
      if state != ST_BEGIN {
        return State;
      }
      result := fileResult;
      if !result.Success() {
        return;
      }
      this.headerSize := headerSize;
      var descriptor, sub, list := LinkSubDescriptors(essenceSubDescriptorList, instanceUID);
      essenceSubDescriptorList := list;
      essenceDescriptor := Some(descriptor);
      essenceSubDescriptor := Some(sub);
      var g := Goto(state, ST_BEGIN, ST_INIT);
      result, state := g.0, g.1;
      if result.Success() {
        adesc := ADesc.(base := ADesc.base.(DataEssenceCoding := ATMOS_ESSENCE_CODING));
        result := AtmosADescToMD();
      }
    }

    /** Atmos_ADesc_to_MD(m_ADesc): RESULT_PTR when either metadata object is missing. */
    method AtmosADescToMD() returns (result: Result)
      modifies this`essenceSubDescriptor
      ensures result == if old(essenceDescriptor).None? || old(essenceSubDescriptor).None? then Ptr else Ok
      ensures essenceSubDescriptor ==
        if result == Ok then Some(AtmosDescToMD(old(essenceSubDescriptor).value, adesc)) else old(essenceSubDescriptor)
    {
      if essenceDescriptor.None? || essenceSubDescriptor.None? {
        return Ptr;
      }
      essenceSubDescriptor := Some(AtmosDescToMD(essenceSubDescriptor.value, adesc));
      result := Ok;
    }

    /**
     * SetSourceStream: only from INIT and only at an allowed edit rate; a
     * given essenceCoding replaces DataEssenceCoding. The state is READY
     * before the header is written, whatever headerResult (the header
     * write's outcome) then is.
     */
    method SetSourceStream(DDesc: DCDataDescriptor, essenceCoding: Option<UL>, packageLabel: string, defLabel: string,
                           headerResult: Result) returns (result: Result)
      requires Valid()
      modifies this`ddesc, this`essenceDescriptor, this`essenceUL, this`state, this`header
      ensures Valid()
      ensures old(state) != ST_INIT ==> result == State && unchanged(this)
      ensures old(state) == ST_INIT && !RateAllowed(DDesc.EditRate) ==> result == RawFormat && unchanged(this)
      ensures old(state) == ST_INIT && RateAllowed(DDesc.EditRate) ==>
        var d := if essenceCoding.Some? then DDesc.(DataEssenceCoding := essenceCoding.value) else DDesc;
        result == headerResult && state == ST_READY && ddesc == d &&
        essenceDescriptor == Some(DCDataDescToMD(old(essenceDescriptor).value, d)) &&
        essenceUL == EssenceULFor(dict.PrivateDCDataEssence) &&
        header == Some(HeaderRequest(packageLabel, dict.PrivateDCDataWrappingFrame, defLabel, essenceUL,
                                     dict.DataDataDef, d.EditRate, I32ToU32(d.EditRate.Numerator)))
    {
      if state != ST_INIT {
        return State;
      }
      if !RateAllowed(DDesc.EditRate) {
        return RawFormat;
      }
      ddesc := DDesc;
      if essenceCoding.Some? {
        ddesc := ddesc.(DataEssenceCoding := essenceCoding.value);
      }
      result := DCDataDDescToMD();
      if result.Success() {
        essenceUL := EssenceULFor(dict.PrivateDCDataEssence);
        var g := Goto(state, ST_INIT, ST_READY);
        result, state := g.0, g.1;
      }
      if result.Success() {
        var tcFrameRate := I32ToU32(ddesc.EditRate.Numerator);
        header := Some(HeaderRequest(packageLabel, dict.PrivateDCDataWrappingFrame, defLabel, essenceUL,
                                     dict.DataDataDef, ddesc.EditRate, tcFrameRate));
        result := headerResult;
      }
    }

    /** DCData_DDesc_to_MD(m_DDesc): RESULT_PTR when the descriptor is missing. */
    method DCDataDDescToMD() returns (result: Result)
      modifies this`essenceDescriptor
      ensures result == if old(essenceDescriptor).None? then Ptr else Ok
      ensures essenceDescriptor ==
        if result == Ok then Some(DCDataDescToMD(old(essenceDescriptor).value, ddesc)) else old(essenceDescriptor)
    {
      if essenceDescriptor.None? {
        return Ptr;
      }
      essenceDescriptor := Some(DCDataDescToMD(essenceDescriptor.value, ddesc));
      result := Ok;
    }

    /**
     * WriteFrame: READY becomes RUNNING on the first call; no other state
     * is tested. packet is what the packet write returned.
     */
    method WriteFrame(packet: Packet) returns (result: Result)
      requires Valid()
      modifies this
      ensures Valid()
      ensures (result, Frames()) == WriteFrameSpec(old(Frames()), packet)
      ensures essenceDescriptor == old(essenceDescriptor) && essenceSubDescriptor == old(essenceSubDescriptor)
      ensures essenceSubDescriptorList == old(essenceSubDescriptorList) && header == old(header) && footer == old(footer)
      ensures ddesc == old(ddesc) && adesc == old(adesc) && essenceUL == old(essenceUL)
      ensures info == old(info) && headerSize == old(headerSize)
    {
      result := Ok;
      if state == ST_READY {
        var g := Goto(state, ST_READY, ST_RUNNING);
        result, state := g.0, g.1;
      }
      var offset := streamOffset;
      if result.Success() {
        result := packet.result;
        if result.Success() {
          streamOffset := AddU64(streamOffset, packet.length);
        }
      }
      if result.Success() {
        CountWraps(|index|);
        index := index + [EntryAt(offset)];
        framesWritten := AddU32(framesWritten, 1);
      }
    }

    /** Finalize: only from RUNNING; FINAL is entered before the footer write, whose outcome is returned. */
    method Finalize(footerResult: Result) returns (result: Result)
      requires Valid()
      modifies this
      ensures Valid()
      ensures old(state) != ST_RUNNING ==> result == State && unchanged(this)
      ensures old(state) == ST_RUNNING ==>
        result == footerResult && state == ST_FINAL && footer == Some(index) &&
        Frames() == old(Frames()).(state := ST_FINAL) && header == old(header) &&
        essenceDescriptor == old(essenceDescriptor) && essenceSubDescriptor == old(essenceSubDescriptor) &&
        essenceSubDescriptorList == old(essenceSubDescriptorList) && ddesc == old(ddesc) && adesc == old(adesc) &&
        essenceUL == old(essenceUL) && info == old(info) && headerSize == old(headerSize)
    {
      if state != ST_RUNNING {
        return State;
      }
      var g := Goto(state, ST_RUNNING, ST_FINAL);
      state := g.1;
      footer := Some(index);
      result := footerResult;
    }
  }

  /** One more entry adds one to the 32-bit count of entries. */
  lemma CountWraps(n: nat)
    ensures AddU32(n % UINT32_MODULUS, 1) == (n + 1) % UINT32_MODULUS
  {
  }

  /** ASDCP::ATMOS::MXFWriter: every call but OpenWrite returns RESULT_INIT while no writer is open. */
  class MXFWriter {
    const dict: Dictionary
    var writer: Writer?

    constructor (dict: Dictionary)
      ensures this.dict == dict && writer == null
    {
      this.dict := dict;
      writer := null;
    }

    /**
     * OpenWrite: LS_MXF_SMPTE only; a new writer is opened at the
     * descriptor's rate with the Atmos essence coding, and dropped again if
     * either step fails.
     */
    method OpenWrite(Info: WriterInfo, ADesc: AtmosDescriptor, headerSize: uint32,
                     fileResult: Result, instanceUID: UUID, headerResult: Result) returns (result: Result)
      modifies this
      ensures Info.LabelSetType != LS_MXF_SMPTE ==> result == Format && writer == old(writer)
      ensures Info.LabelSetType == LS_MXF_SMPTE ==>
        result == (if !fileResult.Success() then fileResult
                   else if !RateAllowed(ADesc.base.EditRate) then RawFormat
                   else headerResult) &&
        (writer != null <==> result.Success())
      ensures Info.LabelSetType == LS_MXF_SMPTE && writer != null ==>
        fresh(writer) && writer.Valid() && writer.state == ST_READY && writer.info == Info &&
        writer.dict == dict && writer.headerSize == headerSize &&
        writer.adesc == ADesc.(base := ADesc.base.(DataEssenceCoding := ATMOS_ESSENCE_CODING)) &&
        writer.ddesc == ADesc.base.(DataEssenceCoding := ATMOS_ESSENCE_CODING) &&
        writer.essenceDescriptor == Some(DCDataDescToMD(NewDCDataDescriptor().(SubDescriptors := [instanceUID]), writer.ddesc)) &&
        writer.essenceSubDescriptor == Some(AtmosDescToMD(NewAtmosSubDescriptor().(InstanceUID := instanceUID), writer.adesc)) &&
        writer.index == [] && writer.framesWritten == 0 && writer.streamOffset == 0 &&
        writer.essenceUL == EssenceULFor(dict.PrivateDCDataEssence) &&
        writer.header == Some(HeaderRequest(ATMOS_PACKAGE_LABEL, dict.PrivateDCDataWrappingFrame, ATMOS_DEF_LABEL,
                                            writer.essenceUL, dict.DataDataDef, writer.ddesc.EditRate,
                                            I32ToU32(writer.ddesc.EditRate.Numerator))) &&
        writer.footer == None
    {
      if Info.LabelSetType != LS_MXF_SMPTE {
        return Format;
      }
      var w := new Writer(dict);
      w.info := Info;
      writer := w;
      result := w.OpenWrite(fileResult, headerSize, ADesc, instanceUID);
      if result.Success() {
        result := w.SetSourceStream(ADesc.base, Some(ATMOS_ESSENCE_CODING), ATMOS_PACKAGE_LABEL, ATMOS_DEF_LABEL, headerResult);
      }
      if !result.Success() {
        writer := null;
      }
    }

    method WriteFrame(packet: Packet) returns (result: Result)
      requires writer != null ==> writer.Valid()
      modifies writer
      ensures writer == old(writer)
      ensures writer == null ==> result == Init
      ensures writer != null ==> writer.Valid() && (result, writer.Frames()) == WriteFrameSpec(old(writer.Frames()), packet)
      ensures writer != null ==>
        writer.essenceDescriptor == old(writer.essenceDescriptor) &&
        writer.essenceSubDescriptor == old(writer.essenceSubDescriptor) &&
        writer.essenceSubDescriptorList == old(writer.essenceSubDescriptorList) &&
        writer.header == old(writer.header) && writer.footer == old(writer.footer) &&
        writer.ddesc == old(writer.ddesc) && writer.adesc == old(writer.adesc) && writer.essenceUL == old(writer.essenceUL) &&
        writer.info == old(writer.info) && writer.headerSize == old(writer.headerSize)
    {
      if writer == null {
        return Init;
      }
      result := writer.WriteFrame(packet);
    }

    method Finalize(footerResult: Result) returns (result: Result)
      requires writer != null ==> writer.Valid()
      modifies writer
      ensures writer == old(writer)
      ensures writer == null ==> result == Init
      ensures writer != null ==> (writer.Valid() &&
        (old(writer.state) != ST_RUNNING ==> result == State && unchanged(writer)) &&
        (old(writer.state) == ST_RUNNING ==> result == footerResult && writer.state == ST_FINAL && writer.footer == Some(writer.index)))
      ensures writer != null && old(writer.state) == ST_RUNNING ==>
        writer.Frames() == old(writer.Frames()).(state := ST_FINAL) && writer.header == old(writer.header) &&
        writer.essenceDescriptor == old(writer.essenceDescriptor) &&
        writer.essenceSubDescriptor == old(writer.essenceSubDescriptor) &&
        writer.essenceSubDescriptorList == old(writer.essenceSubDescriptorList) &&
        writer.ddesc == old(writer.ddesc) && writer.adesc == old(writer.adesc) && writer.essenceUL == old(writer.essenceUL) &&
        writer.info == old(writer.info) && writer.headerSize == old(writer.headerSize)
    {
      if writer == null {
        return Init;
      }
      result := writer.Finalize(footerResult);
    }
  }

  // ---------------------------------------------------------------------------
  // The reader

  /** The outcome of h__Reader::OpenRead. */
  datatype OpenOutcome = OpenOutcome(
    result: Result,
    essenceDescriptor: Option<PrivateDCDataDescriptor>,
    essenceSubDescriptor: Option<DolbyAtmosSubDescriptor>,
    ddesc: Option<DCDataDescriptor>,
    adesc: Option<AtmosDescriptor>)

  /**
   * OpenRead as a function of: the sub-descriptor kept from an earlier call
   * (prevSub), what opening the file returned, and what the header holds
   * of each metadata object type.
   */
  function OpenReadSpec(prevSub: Option<DolbyAtmosSubDescriptor>, openResult: Result,
                        descriptor: Option<PrivateDCDataDescriptor>, sub: Option<DolbyAtmosSubDescriptor>): (o: OpenOutcome)
    ensures o.result == Ok || o.result == Format
    ensures o.result == Ok <==>
      openResult.Success() && descriptor.Some? && RateAllowed(descriptor.value.SampleRate) && (prevSub.Some? || sub.Some?)
    ensures o.result == Ok ==>
      o.adesc == Some(MDToAtmosDesc(descriptor.value, if prevSub.Some? then prevSub.value else sub.value)) &&
      o.ddesc == Some(MDToDCDataDesc(descriptor.value))
  {
    var found := if openResult.Success() then descriptor else None;
    if found.None? then OpenOutcome(Format, None, prevSub, None, None)
    else
      var d := MDToDCDataDesc(found.value);
      if !RateAllowed(d.EditRate) then OpenOutcome(Format, found, prevSub, Some(d), None)
      else
        var s := if prevSub.Some? then prevSub else sub;
        if s.None? then OpenOutcome(Format, found, None, Some(d), None)
        else OpenOutcome(Ok, found, s, Some(d), Some(MDToAtmosDesc(found.value, s.value)))
  }

  /** The three ways OpenRead reports RESULT_FORMAT, for a reader opened for the first time. */
  lemma OpenReadFormatCases(openResult: Result, descriptor: Option<PrivateDCDataDescriptor>, sub: Option<DolbyAtmosSubDescriptor>)
    requires openResult.Success()
    ensures descriptor.None? ==> OpenReadSpec(None, openResult, descriptor, sub).result == Format
    ensures descriptor.Some? && !RateAllowed(descriptor.value.SampleRate) ==>
      OpenReadSpec(None, openResult, descriptor, sub).result == Format
    ensures sub.None? ==> OpenReadSpec(None, openResult, descriptor, sub).result == Format
  {
  }

  /** A sub-descriptor found by an earlier OpenRead is kept: a later file's own is not looked up. */
  lemma OpenReadKeepsEarlierSubDescriptor(prevSub: DolbyAtmosSubDescriptor, openResult: Result,
                                          descriptor: PrivateDCDataDescriptor, sub: Option<DolbyAtmosSubDescriptor>)
    requires openResult.Success() && RateAllowed(descriptor.SampleRate)
    ensures OpenReadSpec(Some(prevSub), openResult, Some(descriptor), sub).adesc == Some(MDToAtmosDesc(descriptor, prevSub))
  {
  }

  /**
   * Reading back what the public writer filled: a fresh reader given the
   * writer's two metadata objects recovers the descriptor passed to
   * MXFWriter::OpenWrite, with the Atmos essence coding.
   */
  lemma WriteThenRead(ADesc: AtmosDescriptor, instanceUID: UUID)
    requires RateAllowed(ADesc.base.EditRate)
    ensures var a := ADesc.(base := ADesc.base.(DataEssenceCoding := ATMOS_ESSENCE_CODING));
      var md := DCDataDescToMD(NewDCDataDescriptor().(SubDescriptors := [instanceUID]), a.base);
      var sub := AtmosDescToMD(NewAtmosSubDescriptor().(InstanceUID := instanceUID), a);
      OpenReadSpec(None, Ok, Some(md), Some(sub)) == OpenOutcome(Ok, Some(md), Some(sub), Some(a.base), Some(a))
  {
    var a := ADesc.(base := ADesc.base.(DataEssenceCoding := ATMOS_ESSENCE_CODING));
    var md := DCDataDescToMD(NewDCDataDescriptor().(SubDescriptors := [instanceUID]), a.base);
    var sub := AtmosDescToMD(NewAtmosSubDescriptor().(InstanceUID := instanceUID), a);
    AtmosDescriptorRoundTrip(NewDCDataDescriptor().(SubDescriptors := [instanceUID]), NewAtmosSubDescriptor().(InstanceUID := instanceUID), a);
    assert MDToDCDataDesc(md) == a.base;
  }

  /** h__Reader. */
  class Reader {
    var fileOpen: bool
    /** m_Info, filled from the file's identification when it is opened. */
    var info: WriterInfo
    var essenceDescriptor: Option<PrivateDCDataDescriptor>
    var essenceSubDescriptor: Option<DolbyAtmosSubDescriptor>
    var ddesc: DCDataDescriptor
    var adesc: AtmosDescriptor

    constructor ()
      ensures !fileOpen && essenceDescriptor == None && essenceSubDescriptor == None
    {
      fileOpen := false;
      info := WriterInfo(LS_MXF_UNKNOWN);
      essenceDescriptor := None;
      essenceSubDescriptor := None;
      ddesc := DCDataDescriptor(Rational(0, 0), 0, ZeroUL());
      adesc := AtmosDescriptor(ddesc, 0, 0, 0, ZeroUL(), 0);
    }

    /**
     * OpenRead: openResult is what opening and parsing the file returned,
     * fileInfo the identification it found; descriptor and sub are what the
     * header holds of each object type.
     */
    method OpenRead(openResult: Result, fileInfo: WriterInfo,
                    descriptor: Option<PrivateDCDataDescriptor>, sub: Option<DolbyAtmosSubDescriptor>)
      returns (result: Result)
      modifies this
      ensures var o := OpenReadSpec(old(essenceSubDescriptor), openResult, descriptor, sub);
        result == o.result && essenceDescriptor == o.essenceDescriptor && essenceSubDescriptor == o.essenceSubDescriptor &&
        ddesc == (if o.ddesc.Some? then o.ddesc.value else old(ddesc)) &&
        adesc == (if o.adesc.Some? then o.adesc.value else old(adesc))
      ensures fileOpen == openResult.Success()
      ensures info == if openResult.Success() then fileInfo else old(info)
    {
      result := openResult;
      fileOpen := openResult.Success();
      if fileOpen {
        info := fileInfo;
      }
      essenceDescriptor := None;
      if result.Success() {
        if descriptor.Some? {
          result := Ok;
          essenceDescriptor := descriptor;
        } else {
          result := Fail;
        }
      }
      if essenceDescriptor.None? {
        result := Format;
      }
      if result.Success() {
        result := MDToDCDataDDesc();
      }
      if result.Success() && !RateAllowed(ddesc.EditRate) {
        return Format;
      }
      if result.Success() {
        if essenceSubDescriptor.None? {
          essenceSubDescriptor := sub;
          if sub.None? {
            return Format;
          }
        }
        result := MDToAtmosADesc();
      }
    }

    /** MD_to_DCData_DDesc(m_DDesc). */
    method MDToDCDataDDesc() returns (result: Result)
      modifies this
      ensures essenceDescriptor == old(essenceDescriptor) && essenceSubDescriptor == old(essenceSubDescriptor)
      ensures result == if essenceDescriptor.None? then Ptr else Ok
      ensures ddesc == if result == Ok then MDToDCDataDesc(essenceDescriptor.value) else old(ddesc)
      ensures adesc == old(adesc) && fileOpen == old(fileOpen) && info == old(info)
    {
      if essenceDescriptor.None? {
        return Ptr;
      }
      ddesc := MDToDCDataDesc(essenceDescriptor.value);
      result := Ok;
    }

    /** MD_to_Atmos_ADesc(m_ADesc). */
    method MDToAtmosADesc() returns (result: Result)
      modifies this
      ensures essenceDescriptor == old(essenceDescriptor) && essenceSubDescriptor == old(essenceSubDescriptor)
      ensures result == if essenceDescriptor.None? || essenceSubDescriptor.None? then Ptr else Ok
      ensures adesc == if result == Ok then MDToAtmosDesc(essenceDescriptor.value, essenceSubDescriptor.value) else old(adesc)
      ensures ddesc == old(ddesc) && fileOpen == old(fileOpen) && info == old(info)
    {
      if essenceSubDescriptor.None? || essenceDescriptor.None? {
        return Ptr;
      }
      adesc := MDToAtmosDesc(essenceDescriptor.value, essenceSubDescriptor.value);
      result := Ok;
    }

    /** ReadFrame: RESULT_INIT unless the file is open; frameResult is what reading the packet returned. */
    method ReadFrame(frameResult: Result) returns (result: Result)
      ensures result == if fileOpen then frameResult else Init
    {
      if !fileOpen {
        return Init;
      }
      result := frameResult;
    }

    method Close()
      modifies this
      ensures !fileOpen && essenceDescriptor == old(essenceDescriptor) && essenceSubDescriptor == old(essenceSubDescriptor)
      ensures ddesc == old(ddesc) && adesc == old(adesc) && info == old(info)
    {
      fileOpen := false;
    }
  }

  /** ASDCP::ATMOS::MXFReader: its calls but OpenRead return RESULT_INIT while the file is not open. */
  class MXFReader {
    const reader: Reader

    constructor ()
      ensures fresh(reader) && !reader.fileOpen && reader.essenceSubDescriptor == None
    {
      reader := new Reader();
    }

    method OpenRead(openResult: Result, fileInfo: WriterInfo,
                    descriptor: Option<PrivateDCDataDescriptor>, sub: Option<DolbyAtmosSubDescriptor>)
      returns (result: Result)
      modifies reader
      ensures var o := OpenReadSpec(old(reader.essenceSubDescriptor), openResult, descriptor, sub);
        result == o.result && reader.essenceDescriptor == o.essenceDescriptor &&
        reader.essenceSubDescriptor == o.essenceSubDescriptor &&
        reader.ddesc == (if o.ddesc.Some? then o.ddesc.value else old(reader.ddesc)) &&
        reader.adesc == (if o.adesc.Some? then o.adesc.value else old(reader.adesc))
      ensures reader.fileOpen == openResult.Success()
      ensures reader.info == if openResult.Success() then fileInfo else old(reader.info)
    {
      result := reader.OpenRead(openResult, fileInfo, descriptor, sub);
    }

    method ReadFrame(frameResult: Result) returns (result: Result)
      ensures result == if reader.fileOpen then frameResult else Init
    {
      if reader.fileOpen {
        result := reader.ReadFrame(frameResult);
        return;
      }
      return Init;
    }

    method FillAtmosDescriptor(ADesc: AtmosDescriptor) returns (result: Result, ADesc': AtmosDescriptor)
      ensures result == (if reader.fileOpen then Ok else Init)
      ensures ADesc' == if reader.fileOpen then reader.adesc else ADesc
    {
      if reader.fileOpen {
        return Ok, reader.adesc;
      }
      return Init, ADesc;
    }

    method FillWriterInfo(Info: WriterInfo) returns (result: Result, Info': WriterInfo)
      ensures result == (if reader.fileOpen then Ok else Init)
      ensures Info' == if reader.fileOpen then reader.info else Info
    {
      if reader.fileOpen {
        return Ok, reader.info;
      }
      return Init, Info;
    }

    method Close() returns (result: Result)
      modifies reader
      ensures result == (if old(reader.fileOpen) then Ok else Init)
      ensures !reader.fileOpen && reader.adesc == old(reader.adesc)
      ensures old(reader.fileOpen) ==>
        reader.essenceDescriptor == old(reader.essenceDescriptor) &&
        reader.essenceSubDescriptor == old(reader.essenceSubDescriptor) &&
        reader.ddesc == old(reader.ddesc) && reader.info == old(reader.info)
      ensures !old(reader.fileOpen) ==> unchanged(reader)
    {
      if reader.fileOpen {
        reader.Close();
        return Ok;
      }
      return Init;
    }
  }
}
