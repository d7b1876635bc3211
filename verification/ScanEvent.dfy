/** The scanner event, sent through a Parcel item by item and through two arrays by computed index. */
module ScanEvent {
  import opened TvParcel
  import opened Words

  const MAX_LCN: nat := 4
  const MAX_COMPONENTS: nat := 32

  datatype ScannerLcnInfo = ScannerLcnInfo(net_id: int, ts_id: int, service_id: int,
                                           visible: seq<int>, lcn: seq<int>, valid: seq<int>)

  /** mFrequency is a long; every slot it is sent in is 32 bits wide. */
  datatype ScannerEvent = ScannerEvent(
    mType: int, mPercent: int, mTotalChannelCount: int, mLockedStatus: int, mChannelIndex: int,
    mFrequency: int, mProgramName: string, mprogramType: int, mParas: string, mStrength: int, mSnr: int,
    mVideoStd: int, mAudioStd: int, mIsAutoStd: int,
    mMode: int, mSymbolRate: int, mModulation: int, mBandwidth: int, mReserved: int,
    mTsId: int, mONetId: int, mServiceId: int, mVid: int, mVfmt: int,
    mAcnt: int, mAid: seq<int>, mAfmt: seq<int>, mAlang: seq<string>, mAtype: seq<int>, mAExt: seq<int>,
    mPcr: int,
    mScnt: int, mStype: seq<int>, mSid: seq<int>, mSstype: seq<int>, mSid1: seq<int>, mSid2: seq<int>,
    mSlang: seq<string>,
    mFree_ca: int, mScrambled: int, mScanMode: int, mSdtVer: int, mSortMode: int, mLcnInfo: ScannerLcnInfo,
    mMajorChannelNumber: int, mMinorChannelNumber: int, mSourceId: int,
    mAccessControlled: int, mHidden: int, mHideGuide: int, mVct: string, mProgramsInPat: int, mPatTsId: int)

  /** The counts lie within the arrays they count. */
  predicate Valid(e: ScannerEvent) {
    && 0 <= e.mAcnt <= MAX_COMPONENTS && 0 <= e.mScnt <= MAX_COMPONENTS
    && |e.mAid| == |e.mAfmt| == |e.mAlang| == |e.mAtype| == |e.mAExt| == MAX_COMPONENTS
    && |e.mStype| == |e.mSid| == |e.mSstype| == |e.mSid1| == |e.mSid2| == |e.mSlang| == MAX_COMPONENTS
    && |e.mLcnInfo.visible| == |e.mLcnInfo.lcn| == |e.mLcnInfo.valid| == MAX_LCN
  }

  // ---------------------------------------------------------------- the order of the Parcel

  function Progress(e: ScannerEvent): (r: seq<Item>)
    ensures |r| == 5
  {
    [Int(e.mType), Int(e.mPercent), Int(e.mTotalChannelCount), Int(e.mLockedStatus),
     Int(e.mChannelIndex)]
  }

  function Signal(e: ScannerEvent): (r: seq<Item>)
    ensures |r| == 6
  {
    [Int(ToInt32(e.mFrequency)), Str(e.mProgramName), Int(e.mprogramType), Str(e.mParas),
     Int(e.mStrength), Int(e.mSnr)]
  }

  function Atv(e: ScannerEvent): (r: seq<Item>)
    ensures |r| == 7
  {
    [Int(e.mVideoStd), Int(e.mAudioStd), Int(e.mIsAutoStd), Int(e.mMode), Int(e.mSymbolRate),
     Int(e.mModulation), Int(e.mBandwidth)]
  }

  function Dtv(e: ScannerEvent): (r: seq<Item>)
    ensures |r| == 7
  {
    [Int(e.mReserved), Int(e.mTsId), Int(e.mONetId), Int(e.mServiceId), Int(e.mVid), Int(e.mVfmt),
     Int(e.mAcnt)]
  }

  function Head(e: ScannerEvent): seq<Item> {
    Progress(e) + (Signal(e) + (Atv(e) + Dtv(e)))
  }

  function Audio(e: ScannerEvent): seq<Item>
    requires Valid(e)
  {
    var n := e.mAcnt;
    IntItems(e.mAid[..n]) + (IntItems(e.mAfmt[..n]) + (StrItems(e.mAlang[..n]) +
    (IntItems(e.mAtype[..n]) + IntItems(e.mAExt[..n]))))
  }

  function Counts(e: ScannerEvent): (r: seq<Item>)
    ensures |r| == 2
  {
    [Int(e.mPcr), Int(e.mScnt)]
  }

  function Subtitles(e: ScannerEvent): seq<Item>
    requires Valid(e)
  {
    var n := e.mScnt;
    IntItems(e.mStype[..n]) + (IntItems(e.mSid[..n]) + (IntItems(e.mSstype[..n]) +
    (IntItems(e.mSid1[..n]) + (IntItems(e.mSid2[..n]) + StrItems(e.mSlang[..n])))))
  }

  function Program(e: ScannerEvent): (r: seq<Item>)
    ensures |r| == 5
  {
    [Int(e.mFree_ca), Int(e.mScrambled), Int(e.mScanMode), Int(e.mSdtVer), Int(e.mSortMode)]
  }

  function LcnIds(e: ScannerEvent): (r: seq<Item>)
    ensures |r| == 3
  {
    [Int(e.mLcnInfo.net_id), Int(e.mLcnInfo.ts_id), Int(e.mLcnInfo.service_id)]
  }

  function LcnSlots(l: ScannerLcnInfo, n: nat): (r: seq<Item>)
    requires n <= |l.visible| == |l.lcn| == |l.valid|
    ensures |r| == 3 * n
  {
    if n == 0 then []
    else LcnSlots(l, n - 1) + [Int(l.visible[n - 1]), Int(l.lcn[n - 1]), Int(l.valid[n - 1])]
  }

  function Channel(e: ScannerEvent): (r: seq<Item>)
    ensures |r| == 6
  {
    [Int(e.mMajorChannelNumber), Int(e.mMinorChannelNumber), Int(e.mSourceId),
     Int(e.mAccessControlled), Int(e.mHidden), Int(e.mHideGuide)]
  }

  function Vct(e: ScannerEvent): (r: seq<Item>)
    ensures |r| == 3
  {
    [Str(e.mVct), Int(e.mProgramsInPat), Int(e.mPatTsId)]
  }

  function Tail(e: ScannerEvent): seq<Item>
    requires Valid(e)
  {
    Program(e) + (LcnIds(e) + (LcnSlots(e.mLcnInfo, MAX_LCN) + (Channel(e) + Vct(e))))
  }

  function Stream(e: ScannerEvent): seq<Item>
    requires Valid(e)
  {
    Head(e) + (Audio(e) + (Counts(e) + (Subtitles(e) + Tail(e))))
  }

  // ---------------------------------------------------------------- written item by item

  method WriteProgress(p: Parcel, e: ScannerEvent)
    modifies p
    ensures p.items == old(p.items) + Progress(e)
  {
    p.WriteInt32(e.mType);
    p.WriteInt32(e.mPercent);
    p.WriteInt32(e.mTotalChannelCount);
    p.WriteInt32(e.mLockedStatus);
    p.WriteInt32(e.mChannelIndex);
  }

  method WriteSignal(p: Parcel, e: ScannerEvent)
    modifies p
    ensures p.items == old(p.items) + Signal(e)
  {
    p.WriteInt32(ToInt32(e.mFrequency));
    p.WriteString16(e.mProgramName);
    p.WriteInt32(e.mprogramType);
    p.WriteString16(e.mParas);
    p.WriteInt32(e.mStrength);
    p.WriteInt32(e.mSnr);
  }

  method WriteAtv(p: Parcel, e: ScannerEvent)
    modifies p
    ensures p.items == old(p.items) + Atv(e)
  {
    hide p.Integers;
    p.WriteInt32(e.mVideoStd);
    p.WriteInt32(e.mAudioStd);
    p.WriteInt32(e.mIsAutoStd);
    p.WriteInt32(e.mMode);
    p.WriteInt32(e.mSymbolRate);
    p.WriteInt32(e.mModulation);
    p.WriteInt32(e.mBandwidth);
  }

  method WriteDtv(p: Parcel, e: ScannerEvent)
    modifies p
    ensures p.items == old(p.items) + Dtv(e)
  {
    hide p.Integers;
    p.WriteInt32(e.mReserved);
    p.WriteInt32(e.mTsId);
    p.WriteInt32(e.mONetId);
    p.WriteInt32(e.mServiceId);
    p.WriteInt32(e.mVid);
    p.WriteInt32(e.mVfmt);
    p.WriteInt32(e.mAcnt);
  }

  method WriteAudio(p: Parcel, e: ScannerEvent)
    requires Valid(e)
    modifies p
    ensures p.items == old(p.items) + Audio(e)
  {
    hide IntItems, StrItems;
    p.WriteInts(e.mAid, e.mAcnt);
    p.WriteInts(e.mAfmt, e.mAcnt);
    p.WriteStrings(e.mAlang, e.mAcnt);
    p.WriteInts(e.mAtype, e.mAcnt);
    p.WriteInts(e.mAExt, e.mAcnt);
  }

  method WriteCounts(p: Parcel, e: ScannerEvent)
    modifies p
    ensures p.items == old(p.items) + Counts(e)
  {
    p.WriteInt32(e.mPcr);
    p.WriteInt32(e.mScnt);
  }

  method WriteSubtitles(p: Parcel, e: ScannerEvent)
    requires Valid(e)
    modifies p
    ensures p.items == old(p.items) + Subtitles(e)
  {
    hide IntItems, StrItems;
    p.WriteInts(e.mStype, e.mScnt);
    p.WriteInts(e.mSid, e.mScnt);
    p.WriteInts(e.mSstype, e.mScnt);
    p.WriteInts(e.mSid1, e.mScnt);
    p.WriteInts(e.mSid2, e.mScnt);
    p.WriteStrings(e.mSlang, e.mScnt);
  }

  method WriteProgram(p: Parcel, e: ScannerEvent)
    modifies p
    ensures p.items == old(p.items) + Program(e)
  {
    p.WriteInt32(e.mFree_ca);
    p.WriteInt32(e.mScrambled);
    p.WriteInt32(e.mScanMode);
    p.WriteInt32(e.mSdtVer);
    p.WriteInt32(e.mSortMode);
  }

  method WriteLcnIds(p: Parcel, e: ScannerEvent)
    modifies p
    ensures p.items == old(p.items) + LcnIds(e)
  {
    p.WriteInt32(e.mLcnInfo.net_id);
    p.WriteInt32(e.mLcnInfo.ts_id);
    p.WriteInt32(e.mLcnInfo.service_id);
  }

  method WriteLcn(p: Parcel, l: ScannerLcnInfo)
    requires |l.visible| == |l.lcn| == |l.valid| == MAX_LCN
    modifies p
    ensures p.items == old(p.items) + LcnSlots(l, MAX_LCN)
  {
    for i := 0 to MAX_LCN
      invariant p.items == old(p.items) + LcnSlots(l, i)
    {
      p.WriteInt32(l.visible[i]);
      p.WriteInt32(l.lcn[i]);
      p.WriteInt32(l.valid[i]);
    }
  }

  method WriteChannel(p: Parcel, e: ScannerEvent)
    modifies p
    ensures p.items == old(p.items) + Channel(e)
  {
    p.WriteInt32(e.mMajorChannelNumber);
    p.WriteInt32(e.mMinorChannelNumber);
    p.WriteInt32(e.mSourceId);
    p.WriteInt32(e.mAccessControlled);
    p.WriteInt32(e.mHidden);
    p.WriteInt32(e.mHideGuide);
  }

  method WriteVct(p: Parcel, e: ScannerEvent)
    modifies p
    ensures p.items == old(p.items) + Vct(e)
  {
    p.WriteString16(e.mVct);
    p.WriteInt32(e.mProgramsInPat);
    p.WriteInt32(e.mPatTsId);
  }

  method WriteHead(p: Parcel, e: ScannerEvent)
    modifies p
    ensures p.items == old(p.items) + Head(e)
  {
    hide Progress, Signal, Atv, Dtv;
    WriteProgress(p, e);
    WriteSignal(p, e);
    WriteAtv(p, e);
    WriteDtv(p, e);
  }

  method WriteTail(p: Parcel, e: ScannerEvent)
    requires Valid(e)
    modifies p
    ensures p.items == old(p.items) + Tail(e)
  {
    hide Program, LcnIds, LcnSlots, Channel, Vct;
    WriteProgram(p, e);
    WriteLcnIds(p, e);
    WriteLcn(p, e.mLcnInfo);
    WriteChannel(p, e);
    WriteVct(p, e);
  }

  /** The reference: the event written to a Parcel in order. */
  method WriteParcel(e: ScannerEvent) returns (p: Parcel)
    requires Valid(e)
    ensures fresh(p) && p.items == Stream(e)
  {
    hide Head, Audio, Counts, Subtitles, Tail;
    p := new Parcel();
    WriteHead(p, e);
    WriteAudio(p, e);
    WriteCounts(p, e);
    WriteSubtitles(p, e);
    WriteTail(p, e);
  }

  // ---------------------------------------------------------------- assigned by computed index

  method PutProgress(hp: TvHidlParcel, e: ScannerEvent)
    requires hp.Valid()
    requires hp.IntCount() == 0 && hp.IntCount() + 5 <= hp.bodyInt.Length
    modifies hp, hp.bodyInt
    ensures hp.Valid() && hp.written == old(hp.written) + Progress(e)
    ensures hp.IntCount() == old(hp.IntCount()) + 5 && hp.StrCount() == old(hp.StrCount()) + 0
  {
    hide hp.Valid, hp.IntCount, hp.StrCount;
    hp.PutInt(0, e.mType);
    hp.PutInt(1, e.mPercent);
    hp.PutInt(2, e.mTotalChannelCount);
    hp.PutInt(3, e.mLockedStatus);
    hp.PutInt(4, e.mChannelIndex);
  }

  method PutSignal(hp: TvHidlParcel, e: ScannerEvent)
    requires hp.Valid()
    requires hp.IntCount() == 5 && hp.IntCount() + 4 <= hp.bodyInt.Length
    requires hp.StrCount() == 0 && hp.StrCount() + 2 <= hp.bodyString.Length
    modifies hp, hp.bodyInt, hp.bodyString
    ensures hp.Valid() && hp.written == old(hp.written) + Signal(e)
    ensures hp.IntCount() == old(hp.IntCount()) + 4 && hp.StrCount() == old(hp.StrCount()) + 2
  {
    hide hp.Valid, hp.IntCount, hp.StrCount;
    hp.PutInt(5, ToInt32(e.mFrequency));
    hp.PutString(0, e.mProgramName);
    hp.PutInt(6, e.mprogramType);
    hp.PutString(1, e.mParas);
    hp.PutInt(7, e.mStrength);
    hp.PutInt(8, e.mSnr);
  }

  method PutAtv(hp: TvHidlParcel, e: ScannerEvent)
    requires hp.Valid()
    requires hp.IntCount() == 9 && hp.IntCount() + 7 <= hp.bodyInt.Length
    modifies hp, hp.bodyInt
    ensures hp.Valid() && hp.written == old(hp.written) + Atv(e)
    ensures hp.IntCount() == old(hp.IntCount()) + 7 && hp.StrCount() == old(hp.StrCount()) + 0
  {
    hide hp.Valid, hp.IntCount, hp.StrCount;
    hp.PutInt(9, e.mVideoStd);
    hp.PutInt(10, e.mAudioStd);
    hp.PutInt(11, e.mIsAutoStd);
    hp.PutInt(12, e.mMode);
    hp.PutInt(13, e.mSymbolRate);
    hp.PutInt(14, e.mModulation);
    hp.PutInt(15, e.mBandwidth);
  }

  method PutDtv(hp: TvHidlParcel, e: ScannerEvent)
    requires hp.Valid()
    requires hp.IntCount() == 16 && hp.IntCount() + 7 <= hp.bodyInt.Length
    modifies hp, hp.bodyInt
    ensures hp.Valid() && hp.written == old(hp.written) + Dtv(e)
    ensures hp.IntCount() == old(hp.IntCount()) + 7 && hp.StrCount() == old(hp.StrCount()) + 0
  {
    hide hp.Valid, hp.IntCount, hp.StrCount;
    hp.PutInt(16, e.mReserved);
    hp.PutInt(17, e.mTsId);
    hp.PutInt(18, e.mONetId);
    hp.PutInt(19, e.mServiceId);
    hp.PutInt(20, e.mVid);
    hp.PutInt(21, e.mVfmt);
    hp.PutInt(22, e.mAcnt);
  }

  method PutAudio(hp: TvHidlParcel, e: ScannerEvent)
    requires hp.Valid() && Valid(e)
    requires hp.IntCount() == 23 && 23 + 4 * e.mAcnt <= hp.bodyInt.Length
    requires hp.StrCount() == 2 && 2 + e.mAcnt <= hp.bodyString.Length
    modifies hp, hp.bodyInt, hp.bodyString
    ensures hp.Valid() && hp.written == old(hp.written) + Audio(e)
    ensures hp.IntCount() == 23 + 4 * e.mAcnt && hp.StrCount() == 2 + e.mAcnt
  {
    hide IntItems, StrItems, hp.Valid, hp.IntCount, hp.StrCount;
    hp.PutInts(23, e.mAid, e.mAcnt);
    hp.PutInts(e.mAcnt + 23, e.mAfmt, e.mAcnt);
    hp.PutStrings(2, e.mAlang, e.mAcnt);
    hp.PutInts(2 * e.mAcnt + 23, e.mAtype, e.mAcnt);
    hp.PutInts(3 * e.mAcnt + 23, e.mAExt, e.mAcnt);
  }

  method PutCounts(hp: TvHidlParcel, e: ScannerEvent)
    requires hp.Valid()
    requires Valid(e)
    requires hp.IntCount() == 4 * e.mAcnt + 23 && hp.IntCount() + 2 <= hp.bodyInt.Length
    modifies hp, hp.bodyInt
    ensures hp.Valid() && hp.written == old(hp.written) + Counts(e)
    ensures hp.IntCount() == old(hp.IntCount()) + 2 && hp.StrCount() == old(hp.StrCount()) + 0
  {
    hide hp.Valid, hp.IntCount, hp.StrCount;
    hp.PutInt(4 * e.mAcnt + 23, e.mPcr);
    hp.PutInt(4 * e.mAcnt + 24, e.mScnt);
  }

  method PutSubtitles(hp: TvHidlParcel, e: ScannerEvent)
    requires hp.Valid() && Valid(e)
    requires hp.IntCount() == 4 * e.mAcnt + 25 && 5 * e.mScnt + 4 * e.mAcnt + 25 <= hp.bodyInt.Length
    requires hp.StrCount() == e.mAcnt + 2 && e.mScnt + e.mAcnt + 2 <= hp.bodyString.Length
    modifies hp, hp.bodyInt, hp.bodyString
    ensures hp.Valid() && hp.written == old(hp.written) + Subtitles(e)
    ensures hp.IntCount() == 5 * e.mScnt + 4 * e.mAcnt + 25 && hp.StrCount() == e.mScnt + e.mAcnt + 2
  {
    hide IntItems, StrItems, hp.Valid, hp.IntCount, hp.StrCount;
    hp.PutInts(4 * e.mAcnt + 25, e.mStype, e.mScnt);
    hp.PutInts(e.mScnt + 4 * e.mAcnt + 25, e.mSid, e.mScnt);
    hp.PutInts(2 * e.mScnt + 4 * e.mAcnt + 25, e.mSstype, e.mScnt);
    hp.PutInts(3 * e.mScnt + 4 * e.mAcnt + 25, e.mSid1, e.mScnt);
    hp.PutInts(4 * e.mScnt + 4 * e.mAcnt + 25, e.mSid2, e.mScnt);
    hp.PutStrings(e.mAcnt + 2, e.mSlang, e.mScnt);
  }

  method PutProgram(hp: TvHidlParcel, e: ScannerEvent)
    requires hp.Valid()
    requires Valid(e)
    requires hp.IntCount() == 5 * e.mScnt + 4 * e.mAcnt + 25 && hp.IntCount() + 5 <= hp.bodyInt.Length
    modifies hp, hp.bodyInt
    ensures hp.Valid() && hp.written == old(hp.written) + Program(e)
    ensures hp.IntCount() == old(hp.IntCount()) + 5 && hp.StrCount() == old(hp.StrCount()) + 0
  {
    hide hp.Valid, hp.IntCount, hp.StrCount;
    hp.PutInt(5 * e.mScnt + 4 * e.mAcnt + 25, e.mFree_ca);
    hp.PutInt(5 * e.mScnt + 4 * e.mAcnt + 26, e.mScrambled);
    hp.PutInt(5 * e.mScnt + 4 * e.mAcnt + 27, e.mScanMode);
    hp.PutInt(5 * e.mScnt + 4 * e.mAcnt + 28, e.mSdtVer);
    hp.PutInt(5 * e.mScnt + 4 * e.mAcnt + 29, e.mSortMode);
  }

  method PutLcnIds(hp: TvHidlParcel, e: ScannerEvent)
    requires hp.Valid()
    requires Valid(e)
    requires hp.IntCount() == 5 * e.mScnt + 4 * e.mAcnt + 30 && hp.IntCount() + 3 <= hp.bodyInt.Length
    modifies hp, hp.bodyInt
    ensures hp.Valid() && hp.written == old(hp.written) + LcnIds(e)
    ensures hp.IntCount() == old(hp.IntCount()) + 3 && hp.StrCount() == old(hp.StrCount()) + 0
  {
    hide hp.Valid, hp.IntCount, hp.StrCount;
    hp.PutInt(5 * e.mScnt + 4 * e.mAcnt + 30, e.mLcnInfo.net_id);
    hp.PutInt(5 * e.mScnt + 4 * e.mAcnt + 31, e.mLcnInfo.ts_id);
    hp.PutInt(5 * e.mScnt + 4 * e.mAcnt + 32, e.mLcnInfo.service_id);
  }

  method PutLcn(hp: TvHidlParcel, e: ScannerEvent)
    requires hp.Valid() && Valid(e)
    requires hp.IntCount() == 5 * e.mScnt + 4 * e.mAcnt + 33 && hp.IntCount() + 3 * MAX_LCN <= hp.bodyInt.Length
    modifies hp, hp.bodyInt
    ensures hp.Valid() && hp.written == old(hp.written) + LcnSlots(e.mLcnInfo, MAX_LCN)
    ensures hp.IntCount() == old(hp.IntCount()) + 3 * MAX_LCN && hp.StrCount() == old(hp.StrCount())
  {
    hide hp.Valid, hp.IntCount, hp.StrCount;
    var l := e.mLcnInfo;
    for i := 0 to MAX_LCN
      invariant hp.Valid() && hp.written == old(hp.written) + LcnSlots(l, i)
      invariant hp.IntCount() == old(hp.IntCount()) + 3 * i && hp.StrCount() == old(hp.StrCount())
    {
      hp.PutInt(i * 3 + 5 * e.mScnt + 4 * e.mAcnt + 33, l.visible[i]);
      hp.PutInt(i * 3 + 5 * e.mScnt + 4 * e.mAcnt + 34, l.lcn[i]);
      hp.PutInt(i * 3 + 5 * e.mScnt + 4 * e.mAcnt + 35, l.valid[i]);
    }
  }

  method PutChannel(hp: TvHidlParcel, e: ScannerEvent)
    requires hp.Valid()
    requires Valid(e)
    requires hp.IntCount() == MAX_LCN * 3 + 5 * e.mScnt + 4 * e.mAcnt + 33 && hp.IntCount() + 6 <= hp.bodyInt.Length
    modifies hp, hp.bodyInt
    ensures hp.Valid() && hp.written == old(hp.written) + Channel(e)
    ensures hp.IntCount() == old(hp.IntCount()) + 6 && hp.StrCount() == old(hp.StrCount()) + 0
  {
    hide hp.Valid, hp.IntCount, hp.StrCount;
    hp.PutInt(MAX_LCN * 3 + 5 * e.mScnt + 4 * e.mAcnt + 33, e.mMajorChannelNumber);
    hp.PutInt(MAX_LCN * 3 + 5 * e.mScnt + 4 * e.mAcnt + 34, e.mMinorChannelNumber);
    hp.PutInt(MAX_LCN * 3 + 5 * e.mScnt + 4 * e.mAcnt + 35, e.mSourceId);
    hp.PutInt(MAX_LCN * 3 + 5 * e.mScnt + 4 * e.mAcnt + 36, e.mAccessControlled);
    hp.PutInt(MAX_LCN * 3 + 5 * e.mScnt + 4 * e.mAcnt + 37, e.mHidden);
    hp.PutInt(MAX_LCN * 3 + 5 * e.mScnt + 4 * e.mAcnt + 38, e.mHideGuide);
  }

  method PutVct(hp: TvHidlParcel, e: ScannerEvent)
    requires hp.Valid()
    requires Valid(e)
    requires hp.IntCount() == MAX_LCN * 3 + 5 * e.mScnt + 4 * e.mAcnt + 39 && hp.IntCount() + 2 <= hp.bodyInt.Length
    requires hp.StrCount() == e.mScnt + e.mAcnt + 2 && hp.StrCount() + 1 <= hp.bodyString.Length
    modifies hp, hp.bodyInt, hp.bodyString
    ensures hp.Valid() && hp.written == old(hp.written) + Vct(e)
    ensures hp.IntCount() == old(hp.IntCount()) + 2 && hp.StrCount() == old(hp.StrCount()) + 1
  {
    hide hp.Valid, hp.IntCount, hp.StrCount;
    hp.PutString(e.mScnt + e.mAcnt + 2, e.mVct);
    hp.PutInt(MAX_LCN * 3 + 5 * e.mScnt + 4 * e.mAcnt + 39, e.mProgramsInPat);
    hp.PutInt(MAX_LCN * 3 + 5 * e.mScnt + 4 * e.mAcnt + 40, e.mPatTsId);
  }

  method PutHead(hp: TvHidlParcel, e: ScannerEvent)
    requires hp.Valid() && hp.IntCount() == 0 && hp.StrCount() == 0
    requires 23 <= hp.bodyInt.Length && 2 <= hp.bodyString.Length
    modifies hp, hp.bodyInt, hp.bodyString
    ensures hp.Valid() && hp.written == old(hp.written) + Head(e)
    ensures hp.IntCount() == 23 && hp.StrCount() == 2
  {
    hide Progress, Signal, Atv, Dtv, hp.Valid, hp.IntCount, hp.StrCount;
    PutProgress(hp, e);
    PutSignal(hp, e);
    PutAtv(hp, e);
    PutDtv(hp, e);
  }

  method PutTail(hp: TvHidlParcel, e: ScannerEvent)
    requires hp.Valid() && Valid(e)
    requires hp.IntCount() == 5 * e.mScnt + 4 * e.mAcnt + 25 && hp.StrCount() == e.mScnt + e.mAcnt + 2
    requires hp.bodyInt.Length == MAX_LCN * 3 + 5 * e.mScnt + 4 * e.mAcnt + 41
    requires hp.bodyString.Length == e.mScnt + e.mAcnt + 3
    modifies hp, hp.bodyInt, hp.bodyString
    ensures hp.Valid() && hp.written == old(hp.written) + Tail(e)
    ensures hp.IntCount() == hp.bodyInt.Length && hp.StrCount() == hp.bodyString.Length
  {
    hide Program, LcnIds, LcnSlots, Channel, Vct, hp.Valid, hp.IntCount, hp.StrCount;
    PutProgram(hp, e);
    PutLcnIds(hp, e);
    PutLcn(hp, e);
    PutChannel(hp, e);
    PutVct(hp, e);
  }

  /** The computed-index form. Both arrays are filled exactly, each slot once, with the integers and the
      strings of the Parcel. */
  method FillArrays(e: ScannerEvent) returns (hp: TvHidlParcel)
    requires Valid(e)
    ensures fresh(hp)
    ensures hp.bodyInt.Length == MAX_LCN * 3 + 5 * e.mScnt + 4 * e.mAcnt + 41
    ensures hp.bodyString.Length == e.mScnt + e.mAcnt + 3
    ensures hp.bodyInt[..] == Ints(Stream(e))
    ensures hp.bodyString[..] == Strs(Stream(e))
  {
    hp := FillInOrder(e);
    assert hp.bodyInt[..] == hp.bodyInt[..hp.IntCount()];
    assert hp.bodyString[..] == hp.bodyString[..hp.StrCount()];
  }

  method FillInOrder(e: ScannerEvent) returns (hp: TvHidlParcel)
    requires Valid(e)
    ensures fresh(hp) && hp.Valid() && hp.written == Stream(e)
    ensures hp.IntCount() == hp.bodyInt.Length == MAX_LCN * 3 + 5 * e.mScnt + 4 * e.mAcnt + 41
    ensures hp.StrCount() == hp.bodyString.Length == e.mScnt + e.mAcnt + 3
  {
    hide Head, Audio, Counts, Subtitles, Tail, TvHidlParcel.Valid, TvHidlParcel.IntCount, TvHidlParcel.StrCount;
    hp := new TvHidlParcel(MAX_LCN * 3 + 5 * e.mScnt + 4 * e.mAcnt + 41, e.mScnt + e.mAcnt + 3);
    PutHead(hp, e);
    PutAudio(hp, e);
    PutCounts(hp, e);
    PutSubtitles(hp, e);
    PutTail(hp, e);
  }

  // ---------------------------------------------------------------- reading the arrays back

  /** What of an event is sent: the counted parts of its arrays, and the low 32 bits of the frequency. */
  function Transmitted(e: ScannerEvent): ScannerEvent
    requires Valid(e)
  {
    var a, s := e.mAcnt, e.mScnt;
    e.(mFrequency := ToInt32(e.mFrequency),
       mAid := e.mAid[..a], mAfmt := e.mAfmt[..a], mAlang := e.mAlang[..a],
       mAtype := e.mAtype[..a], mAExt := e.mAExt[..a],
       mStype := e.mStype[..s], mSid := e.mSid[..s], mSstype := e.mSstype[..s],
       mSid1 := e.mSid1[..s], mSid2 := e.mSid2[..s], mSlang := e.mSlang[..s])
  }

  datatype Decoded = Event(e: ScannerEvent) | Malformed

  /** A reader that knows only the two arrays: the counts stand at slots 22 and 4 * mAcnt + 24. */
  function Decode(ints: seq<int>, strs: seq<string>): Decoded {
    if |ints| < 25 || ints[22] < 0 || |ints| < 4 * ints[22] + 25 then Malformed
    else if ints[4 * ints[22] + 24] < 0 then Malformed
    else if |ints| != MAX_LCN * 3 + 5 * ints[4 * ints[22] + 24] + 4 * ints[22] + 41 then Malformed
    else if |strs| != ints[4 * ints[22] + 24] + ints[22] + 3 then Malformed
    else Event(Fields(ints, strs, ints[22], ints[4 * ints[22] + 24]))
  }

  function LcnFields(t: seq<int>): ScannerLcnInfo
    requires |t| == 28
  {
    ScannerLcnInfo(t[5], t[6], t[7], [t[8], t[11], t[14], t[17]], [t[9], t[12], t[15], t[18]],
                   [t[10], t[13], t[16], t[19]])
  }

  /** An event from the blocks of fixed length h, m, t and n, and the counted sections. */
  function Assemble(h: seq<int>, aid: seq<int>, afmt: seq<int>, atype: seq<int>, aext: seq<int>, m: seq<int>,
                    stype: seq<int>, sid: seq<int>, sstype: seq<int>, sid1: seq<int>, sid2: seq<int>, t: seq<int>,
                    n: seq<string>, alang: seq<string>, slang: seq<string>, vct: seq<string>): ScannerEvent
    requires |h| == 23 && |m| == 2 && |t| == 28 && |n| == 2 && |vct| == 1
  {
    ScannerEvent(h[0], h[1], h[2], h[3], h[4], h[5], n[0], h[6], n[1], h[7], h[8],
                 h[9], h[10], h[11], h[12], h[13], h[14], h[15], h[16], h[17], h[18], h[19], h[20], h[21],
                 h[22], aid, afmt, alang, atype, aext, m[0],
                 m[1], stype, sid, sstype, sid1, sid2, slang,
                 t[0], t[1], t[2], t[3], t[4], LcnFields(t), t[20], t[21], t[22], t[23], t[24], t[25],
                 vct[0], t[26], t[27])
  }

  function Fields(ints: seq<int>, strs: seq<string>, a: nat, s: nat): ScannerEvent
    requires |ints| == 12 + 5 * s + 4 * a + 41 && |strs| == s + a + 3
  {
    var c := 4 * a + 25;
    Assemble(ints[..23], ints[23..23 + a], ints[23 + a..23 + 2 * a], ints[23 + 2 * a..23 + 3 * a],
             ints[23 + 3 * a..23 + 4 * a], ints[4 * a + 23..4 * a + 25],
             ints[c..c + s], ints[c + s..c + 2 * s], ints[c + 2 * s..c + 3 * s], ints[c + 3 * s..c + 4 * s],
             ints[c + 4 * s..c + 5 * s], ints[5 * s + 4 * a + 25..],
             strs[..2], strs[2..2 + a], strs[2 + a..2 + a + s], strs[2 + a + s..])
  }

  function HeadInts(e: ScannerEvent): (r: seq<int>)
    ensures |r| == 23
  {
    [e.mType, e.mPercent, e.mTotalChannelCount, e.mLockedStatus, e.mChannelIndex, ToInt32(e.mFrequency),
     e.mprogramType, e.mStrength, e.mSnr, e.mVideoStd, e.mAudioStd, e.mIsAutoStd, e.mMode, e.mSymbolRate,
     e.mModulation, e.mBandwidth, e.mReserved, e.mTsId, e.mONetId, e.mServiceId, e.mVid, e.mVfmt, e.mAcnt]
  }

  function TailInts(e: ScannerEvent): (r: seq<int>)
    requires Valid(e)
    ensures |r| == 28
  {
    var l := e.mLcnInfo;
    [e.mFree_ca, e.mScrambled, e.mScanMode, e.mSdtVer, e.mSortMode, l.net_id, l.ts_id, l.service_id,
     l.visible[0], l.lcn[0], l.valid[0], l.visible[1], l.lcn[1], l.valid[1],
     l.visible[2], l.lcn[2], l.valid[2], l.visible[3], l.lcn[3], l.valid[3],
     e.mMajorChannelNumber, e.mMinorChannelNumber, e.mSourceId, e.mAccessControlled, e.mHidden, e.mHideGuide,
     e.mProgramsInPat, e.mPatTsId]
  }

  function AudioInts(e: ScannerEvent): (r: seq<int>)
    requires Valid(e)
    ensures |r| == 4 * e.mAcnt
  {
    var n := e.mAcnt;
    e.mAid[..n] + (e.mAfmt[..n] + (e.mAtype[..n] + e.mAExt[..n]))
  }

  function SubtitleInts(e: ScannerEvent): (r: seq<int>)
    requires Valid(e)
    ensures |r| == 5 * e.mScnt
  {
    var n := e.mScnt;
    e.mStype[..n] + (e.mSid[..n] + (e.mSstype[..n] + (e.mSid1[..n] + e.mSid2[..n])))
  }

  /** A run of integers, a run of strings, and what follows. */
  lemma ProjectBlock(ints: seq<int>, strs: seq<string>, rest: seq<Item>)
    ensures Ints(IntItems(ints) + (StrItems(strs) + rest)) == ints + Ints(rest)
    ensures Strs(IntItems(ints) + (StrItems(strs) + rest)) == strs + Strs(rest)
  {
    ProjectionsConcat(IntItems(ints), StrItems(strs) + rest);
    ProjectionsConcat(StrItems(strs), rest);
    IntItemsProject(ints);
    StrItemsProject(strs);
  }

  lemma HeadProjects(e: ScannerEvent)
    ensures Ints(Head(e)) == HeadInts(e) && Strs(Head(e)) == [e.mProgramName, e.mParas]
  {
    hide Ints, Strs, Progress, Signal, Atv, Dtv, HeadInts, ToInt32;
    ProjectionsConcat(Progress(e), Signal(e) + (Atv(e) + Dtv(e)));
    ProjectionsConcat(Signal(e), Atv(e) + Dtv(e));
    ProjectionsConcat(Atv(e), Dtv(e));
    SignalProjects(e);
    PlainProject(e);
    HeadIntsListed(e);
  }

  lemma SignalProjects(e: ScannerEvent)
    ensures Ints(Signal(e)) == [ToInt32(e.mFrequency), e.mprogramType, e.mStrength, e.mSnr]
    ensures Strs(Signal(e)) == [e.mProgramName, e.mParas]
  {
    hide Ints, Strs, ToInt32;
    var last := IntItems([e.mStrength, e.mSnr]) + (StrItems([]) + []);
    var middle := IntItems([e.mprogramType]) + (StrItems([e.mParas]) + last);
    assert Signal(e) == IntItems([ToInt32(e.mFrequency)]) + (StrItems([e.mProgramName]) + middle);
    ProjectBlock([e.mStrength, e.mSnr], [], []);
    ProjectBlock([e.mprogramType], [e.mParas], last);
    ProjectBlock([ToInt32(e.mFrequency)], [e.mProgramName], middle);
    NoItems();
  }

  lemma PlainProject(e: ScannerEvent)
    ensures Ints(Progress(e)) == [e.mType, e.mPercent, e.mTotalChannelCount, e.mLockedStatus, e.mChannelIndex]
    ensures Ints(Atv(e)) == [e.mVideoStd, e.mAudioStd, e.mIsAutoStd, e.mMode, e.mSymbolRate, e.mModulation,
                             e.mBandwidth]
    ensures Ints(Dtv(e)) == [e.mReserved, e.mTsId, e.mONetId, e.mServiceId, e.mVid, e.mVfmt, e.mAcnt]
    ensures Strs(Progress(e)) == Strs(Atv(e)) == Strs(Dtv(e)) == []
  {
    hide Ints, Strs;
    var p := [e.mType, e.mPercent, e.mTotalChannelCount, e.mLockedStatus, e.mChannelIndex];
    var a := [e.mVideoStd, e.mAudioStd, e.mIsAutoStd, e.mMode, e.mSymbolRate, e.mModulation, e.mBandwidth];
    var d := [e.mReserved, e.mTsId, e.mONetId, e.mServiceId, e.mVid, e.mVfmt, e.mAcnt];
    assert Progress(e) == IntItems(p) && Atv(e) == IntItems(a) && Dtv(e) == IntItems(d);
    IntItemsProject(p);
    IntItemsProject(a);
    IntItemsProject(d);
  }

  lemma HeadIntsListed(e: ScannerEvent)
    ensures [e.mType, e.mPercent, e.mTotalChannelCount, e.mLockedStatus, e.mChannelIndex] +
            ([ToInt32(e.mFrequency), e.mprogramType, e.mStrength, e.mSnr] +
             ([e.mVideoStd, e.mAudioStd, e.mIsAutoStd, e.mMode, e.mSymbolRate, e.mModulation, e.mBandwidth] +
              [e.mReserved, e.mTsId, e.mONetId, e.mServiceId, e.mVid, e.mVfmt, e.mAcnt])) == HeadInts(e)
  {
    hide ToInt32;
  }

  lemma NoItems()
    ensures Ints([]) == [] && Strs([]) == []
  {}

  lemma LcnSlotsListed(l: ScannerLcnInfo)
    requires |l.visible| == |l.lcn| == |l.valid| == MAX_LCN
    ensures LcnSlots(l, MAX_LCN) ==
            IntItems([l.visible[0], l.lcn[0], l.valid[0], l.visible[1], l.lcn[1], l.valid[1],
                      l.visible[2], l.lcn[2], l.valid[2], l.visible[3], l.lcn[3], l.valid[3]])
  {
    assert LcnSlots(l, 1) == [Int(l.visible[0]), Int(l.lcn[0]), Int(l.valid[0])];
    assert LcnSlots(l, 2) == LcnSlots(l, 1) + [Int(l.visible[1]), Int(l.lcn[1]), Int(l.valid[1])];
    assert LcnSlots(l, 3) == LcnSlots(l, 2) + [Int(l.visible[2]), Int(l.lcn[2]), Int(l.valid[2])];
    assert LcnSlots(l, 4) == LcnSlots(l, 3) + [Int(l.visible[3]), Int(l.lcn[3]), Int(l.valid[3])];
  }

  lemma TailListed(e: ScannerEvent)
    requires Valid(e)
    ensures var i1 := [e.mProgramsInPat, e.mPatTsId];
            && TailInts(e) == TailInts(e)[..26] + i1
            && Tail(e) == IntItems(TailInts(e)[..26]) + (StrItems([e.mVct]) + (IntItems(i1) + (StrItems([]) + [])))
  {
    hide Ints, Strs, LcnSlots;
    LcnSlotsListed(e.mLcnInfo);
  }

  lemma TailProjects(e: ScannerEvent)
    requires Valid(e)
    ensures Ints(Tail(e)) == TailInts(e) && Strs(Tail(e)) == [e.mVct]
  {
    hide Ints, Strs, Tail, TailInts;
    var i0, i1 := TailInts(e)[..26], [e.mProgramsInPat, e.mPatTsId];
    var last := IntItems(i1) + (StrItems([]) + []);
    TailListed(e);
    ProjectBlock(i1, [], []);
    ProjectBlock(i0, [e.mVct], last);
    NoItems();
  }

  lemma AudioProjects(e: ScannerEvent)
    requires Valid(e)
    ensures Ints(Audio(e)) == AudioInts(e) && Strs(Audio(e)) == e.mAlang[..e.mAcnt]
  {
    hide Ints, Strs;
    var n := e.mAcnt;
    var i0, i1 := e.mAid[..n] + e.mAfmt[..n], e.mAtype[..n] + e.mAExt[..n];
    var last := IntItems(i1) + (StrItems([]) + []);
    assert Audio(e) == IntItems(i0) + (StrItems(e.mAlang[..n]) + last);
    ProjectBlock(i1, [], []);
    ProjectBlock(i0, e.mAlang[..n], last);
    NoItems();
  }

  lemma SubtitlesProject(e: ScannerEvent)
    requires Valid(e)
    ensures Ints(Subtitles(e)) == SubtitleInts(e) && Strs(Subtitles(e)) == e.mSlang[..e.mScnt]
  {
    hide Ints, Strs;
    var n := e.mScnt;
    assert Subtitles(e) == IntItems(SubtitleInts(e)) + (StrItems(e.mSlang[..n]) + []);
    ProjectBlock(SubtitleInts(e), e.mSlang[..n], []);
    NoItems();
  }

  lemma StreamProjects(e: ScannerEvent)
    requires Valid(e)
    ensures Ints(Stream(e)) == HeadInts(e) + (AudioInts(e) + ([e.mPcr, e.mScnt] + (SubtitleInts(e) + TailInts(e))))
    ensures Strs(Stream(e)) ==
            [e.mProgramName, e.mParas] + (e.mAlang[..e.mAcnt] + (e.mSlang[..e.mScnt] + [e.mVct]))
  {
    hide Ints, Strs, Head, Tail, Audio, Subtitles, HeadInts, TailInts, AudioInts, SubtitleInts;
    HeadProjects(e);
    AudioProjects(e);
    SubtitlesProject(e);
    TailProjects(e);
    var t3 := Subtitles(e) + Tail(e);
    var t2 := Counts(e) + t3;
    assert t2 == IntItems([e.mPcr, e.mScnt]) + (StrItems([]) + t3);
    ProjectBlock([e.mPcr, e.mScnt], [], t3);
    ProjectionsConcat(Head(e), Audio(e) + t2);
    ProjectionsConcat(Audio(e), t2);
    ProjectionsConcat(Subtitles(e), Tail(e));
  }

  /** The piece of a concatenation that starts at k. */
  lemma Piece<T>(all: seq<T>, k: nat, m: seq<T>, rest: seq<T>)
    requires k <= |all| && all[k..] == m + rest
    ensures k + |m| <= |all| && all[k..k + |m|] == m && all[k + |m|..] == rest
  {
    assert all[k..][..|m|] == m && all[k..][|m|..] == rest;
  }

  lemma FourPieces<T>(all: seq<T>, k: nat, n: nat, p: seq<T>, q: seq<T>, r: seq<T>, s: seq<T>, rest: seq<T>)
    requires |p| == |q| == |r| == |s| == n
    requires k <= |all| && all[k..] == p + (q + (r + s)) + rest
    ensures |all| >= k + 4 * n && all[k + 4 * n..] == rest
    ensures all[k..k + n] == p && all[k + n..k + 2 * n] == q
    ensures all[k + 2 * n..k + 3 * n] == r && all[k + 3 * n..k + 4 * n] == s
  {
    Assoc(p, q + (r + s), rest);
    Assoc(q, r + s, rest);
    Assoc(r, s, rest);
    Piece(all, k, p, q + (r + (s + rest)));
    Piece(all, k + n, q, r + (s + rest));
    Piece(all, k + 2 * n, r, s + rest);
    Piece(all, k + 3 * n, s, rest);
  }

  /** The arrays cut where the decoder cuts them. */
  predicate FrontCut(e: ScannerEvent, ints: seq<int>)
    requires Valid(e)
    requires |ints| == 12 + 5 * e.mScnt + 4 * e.mAcnt + 41
  {
    var a := e.mAcnt;
    && ints[..23] == HeadInts(e)
    && ints[23..23 + a] == e.mAid[..a] && ints[23 + a..23 + 2 * a] == e.mAfmt[..a]
    && ints[23 + 2 * a..23 + 3 * a] == e.mAtype[..a] && ints[23 + 3 * a..23 + 4 * a] == e.mAExt[..a]
    && ints[4 * a + 23..4 * a + 25] == [e.mPcr, e.mScnt]
  }

  predicate BackCut(e: ScannerEvent, ints: seq<int>)
    requires Valid(e)
    requires |ints| == 12 + 5 * e.mScnt + 4 * e.mAcnt + 41
  {
    var s := e.mScnt;
    var c := 4 * e.mAcnt + 25;
    && ints[c..c + s] == e.mStype[..s] && ints[c + s..c + 2 * s] == e.mSid[..s]
    && ints[c + 2 * s..c + 3 * s] == e.mSstype[..s] && ints[c + 3 * s..c + 4 * s] == e.mSid1[..s]
    && ints[c + 4 * s..c + 5 * s] == e.mSid2[..s]
    && ints[5 * s + 4 * e.mAcnt + 25..] == TailInts(e)
  }

  predicate IntsCut(e: ScannerEvent, ints: seq<int>)
    requires Valid(e)
  {
    |ints| == 12 + 5 * e.mScnt + 4 * e.mAcnt + 41 && FrontCut(e, ints) && BackCut(e, ints)
  }

  predicate StrsCut(e: ScannerEvent, strs: seq<string>)
    requires Valid(e)
  {
    var a, s := e.mAcnt, e.mScnt;
    && |strs| == s + a + 3
    && strs[..2] == [e.mProgramName, e.mParas] && strs[2..2 + a] == e.mAlang[..a]
    && strs[2 + a..2 + a + s] == e.mSlang[..s] && strs[2 + a + s..] == [e.mVct]
  }

  lemma CutBack(e: ScannerEvent, ints: seq<int>)
    requires Valid(e)
    requires |ints| == 12 + 5 * e.mScnt + 4 * e.mAcnt + 41
    requires ints[4 * e.mAcnt + 25..] == SubtitleInts(e) + TailInts(e)
    ensures BackCut(e, ints)
  {
    hide TailInts;
    FivePieces(ints, 4 * e.mAcnt + 25, e.mScnt, e.mStype[..e.mScnt], e.mSid[..e.mScnt], e.mSstype[..e.mScnt],
               e.mSid1[..e.mScnt], e.mSid2[..e.mScnt], TailInts(e));
  }

  lemma FivePieces<T>(all: seq<T>, k: nat, n: nat, o: seq<T>, p: seq<T>, q: seq<T>, r: seq<T>, s: seq<T>,
                      rest: seq<T>)
    requires |o| == |p| == |q| == |r| == |s| == n
    requires k <= |all| && all[k..] == o + (p + (q + (r + s))) + rest
    ensures |all| >= k + 5 * n && all[k + 5 * n..] == rest
    ensures all[k..k + n] == o && all[k + n..k + 2 * n] == p && all[k + 2 * n..k + 3 * n] == q
    ensures all[k + 3 * n..k + 4 * n] == r && all[k + 4 * n..k + 5 * n] == s
  {
    var last := p + (q + (r + s));
    Assoc(o, last, rest);
    Piece(all, k, o, last + rest);
    FourPieces(all, k + n, n, p, q, r, s, rest);
  }

  lemma CutFront(e: ScannerEvent, ints: seq<int>)
    requires Valid(e)
    requires ints == HeadInts(e) + (AudioInts(e) + ([e.mPcr, e.mScnt] + (SubtitleInts(e) + TailInts(e))))
    ensures |ints| == 12 + 5 * e.mScnt + 4 * e.mAcnt + 41 && FrontCut(e, ints)
    ensures ints[4 * e.mAcnt + 25..] == SubtitleInts(e) + TailInts(e)
  {
    hide SubtitleInts, HeadInts, TailInts;
    var a: nat := e.mAcnt;
    var r3 := SubtitleInts(e) + TailInts(e);
    var r2 := [e.mPcr, e.mScnt] + r3;
    assert ints[0..] == ints;
    Piece(ints, 0, HeadInts(e), AudioInts(e) + r2);
    FourPieces(ints, 23, a, e.mAid[..a], e.mAfmt[..a], e.mAtype[..a], e.mAExt[..a], r2);
    Piece(ints, 23 + 4 * a, [e.mPcr, e.mScnt], r3);
    assert ints[0..23] == ints[..23];
  }

  lemma CutInts(e: ScannerEvent, ints: seq<int>)
    requires Valid(e)
    requires ints == HeadInts(e) + (AudioInts(e) + ([e.mPcr, e.mScnt] + (SubtitleInts(e) + TailInts(e))))
    ensures IntsCut(e, ints)
  {
    hide SubtitleInts, HeadInts, TailInts, AudioInts, FrontCut, BackCut;
    CutFront(e, ints);
    CutBack(e, ints);
  }

  lemma CutStrs(e: ScannerEvent, strs: seq<string>)
    requires Valid(e)
    requires strs == [e.mProgramName, e.mParas] + (e.mAlang[..e.mAcnt] + (e.mSlang[..e.mScnt] + [e.mVct]))
    ensures StrsCut(e, strs)
  {
    var a: nat, s: nat := e.mAcnt, e.mScnt;
    assert strs[0..] == strs && strs[0..2] == strs[..2];
    var s2 := e.mSlang[..s] + [e.mVct];
    Piece(strs, 0, [e.mProgramName, e.mParas], e.mAlang[..a] + s2);
    Piece(strs, 2, e.mAlang[..a], s2);
    Piece(strs, 2 + a, e.mSlang[..s], [e.mVct]);
  }

  /** Nothing is lost: from the two arrays alone every transmitted field is recovered. */
  lemma ArraysDecode(e: ScannerEvent)
    requires Valid(e)
    ensures Decode(Ints(Stream(e)), Strs(Stream(e))) == Event(Transmitted(e))
  {
    hide Stream, Ints, Strs, AudioInts, SubtitleInts, HeadInts, TailInts, Decode, Transmitted, IntsCut, StrsCut;
    StreamProjects(e);
    CutInts(e, Ints(Stream(e)));
    CutStrs(e, Strs(Stream(e)));
    CutsDecode(e, Ints(Stream(e)), Strs(Stream(e)));
  }

  lemma CutsDecode(e: ScannerEvent, ints: seq<int>, strs: seq<string>)
    requires Valid(e)
    requires IntsCut(e, ints) && StrsCut(e, strs)
    ensures Decode(ints, strs) == Event(Transmitted(e))
  {
    hide Fields, Transmitted, HeadInts, TailInts, IntsCut, StrsCut;
    CountsInPlace(e, ints, strs);
    FieldsRecovered(e, ints, strs);
  }

  lemma CountsInPlace(e: ScannerEvent, ints: seq<int>, strs: seq<string>)
    requires Valid(e) && IntsCut(e, ints) && StrsCut(e, strs)
    ensures |ints| == 12 + 5 * e.mScnt + 4 * e.mAcnt + 41 && |strs| == e.mScnt + e.mAcnt + 3
    ensures ints[22] == e.mAcnt && ints[4 * e.mAcnt + 24] == e.mScnt
  {
    assert ints[22] == ints[..23][22];
    assert ints[4 * e.mAcnt + 24] == ints[4 * e.mAcnt + 23..4 * e.mAcnt + 25][1];
  }

  lemma LcnRecovered(e: ScannerEvent)
    requires Valid(e)
    ensures LcnFields(TailInts(e)) == e.mLcnInfo
  {
    var l := e.mLcnInfo;
    assert l.visible == [l.visible[0], l.visible[1], l.visible[2], l.visible[3]];
    assert l.lcn == [l.lcn[0], l.lcn[1], l.lcn[2], l.lcn[3]];
    assert l.valid == [l.valid[0], l.valid[1], l.valid[2], l.valid[3]];
  }

  lemma BlocksAssemble(e: ScannerEvent)
    requires Valid(e)
    ensures var a, s := e.mAcnt, e.mScnt;
            Assemble(HeadInts(e), e.mAid[..a], e.mAfmt[..a], e.mAtype[..a], e.mAExt[..a], [e.mPcr, e.mScnt],
                     e.mStype[..s], e.mSid[..s], e.mSstype[..s], e.mSid1[..s], e.mSid2[..s], TailInts(e),
                     [e.mProgramName, e.mParas], e.mAlang[..a], e.mSlang[..s], [e.mVct]) == Transmitted(e)
  {
    hide LcnFields, ToInt32;
    LcnRecovered(e);
  }

  lemma FieldsRecovered(e: ScannerEvent, ints: seq<int>, strs: seq<string>)
    requires Valid(e)
    requires |ints| == 12 + 5 * e.mScnt + 4 * e.mAcnt + 41 && |strs| == e.mScnt + e.mAcnt + 3
    requires IntsCut(e, ints) && StrsCut(e, strs)
    ensures Fields(ints, strs, e.mAcnt, e.mScnt) == Transmitted(e)
  {
    hide Assemble, Transmitted, HeadInts, TailInts;
    BlocksAssemble(e);
  }

  /** Two events whose arrays agree agree on everything transmitted. */
  lemma ArraysDetermineEvent(e: ScannerEvent, f: ScannerEvent)
    requires Valid(e) && Valid(f)
    requires Ints(Stream(e)) == Ints(Stream(f)) && Strs(Stream(e)) == Strs(Stream(f))
    ensures Transmitted(e) == Transmitted(f)
  {
    hide Stream, Ints, Strs, Decode, Transmitted;
    ArraysDecode(e);
    ArraysDecode(f);
  }
}
