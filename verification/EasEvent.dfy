/** The emergency-alert event: one list of integers with counted, nested parts, written to a Parcel item by
    item and to an array of fixed size with a running index. */
module EasEvent {
  import opened TvParcel

  const SLOTS: nat := 1024

  datatype CeaLocation = CeaLocation(i_state_code: int, i_country_subdiv: int, i_country_code: int)

  datatype CeaException = CeaException(i_in_band_refer: int, i_exception_major_channel_number: int,
                                       i_exception_minor_channel_number: int, exception_OOB_source_ID: int)

  datatype MultiText = MultiText(lang: (int, int, int), i_type: int, i_compression_type: int, i_mode: int,
                                 i_number_bytes: int, compressed_str: seq<int>)

  datatype Descriptor = Descriptor(i_tag: int, i_length: int, p_data: seq<int>)

  datatype EasEvent = EasEvent(
    eas_section_count: int, table_id: int, extension: int, version: int, current_next: int,
    sequence_num: int, protocol_version: int, eas_event_id: int, eas_orig_code: (int, int, int),
    eas_event_code_len: int, eas_event_code: seq<int>,
    alert_message_time_remaining: int, event_start_time: int, event_duration: int, alert_priority: int,
    details_OOB_source_ID: int, details_major_channel_number: int, details_minor_channel_number: int,
    audio_OOB_source_ID: int,
    location_count: int, location: seq<CeaLocation>, exception_count: int, exception: seq<CeaException>,
    multi_text_count: int, multi_text: seq<MultiText>,
    descriptor_text_count: int, descriptor: seq<Descriptor>)

  /** The arrays have their declared sizes and no count reaches past its array. A negative count is
      possible: it is sent as it is, and nothing follows it. */
  predicate Valid(e: EasEvent) {
    && |e.eas_event_code| == |e.location| == |e.exception| == 64
    && |e.multi_text| == |e.descriptor| == 2
    && e.eas_event_code_len <= 64 && e.location_count <= 64 && e.exception_count <= 64
    && e.multi_text_count <= 2 && e.descriptor_text_count <= 2
    && (forall t :: t in e.multi_text ==> ValidText(t))
    && (forall d :: d in e.descriptor ==> ValidDescriptor(d))
  }

  predicate ValidText(t: MultiText) {
    |t.compressed_str| == 64 && t.i_number_bytes <= 64
  }

  predicate ValidDescriptor(d: Descriptor) {
    |d.p_data| == 64 && d.i_length <= 64
  }

  /** How many elements a count announces. */
  function Count(c: int): nat {
    if c < 0 then 0 else c
  }

  // ---------------------------------------------------------------- the order of the integers

  function Flat<T(!new)>(enc: T -> seq<int>, xs: seq<T>): seq<int> {
    if xs == [] then [] else Flat(enc, xs[..|xs| - 1]) + enc(xs[|xs| - 1])
  }

  function LocationInts(l: CeaLocation): (r: seq<int>)
    ensures |r| == 3
  {
    [l.i_state_code, l.i_country_subdiv, l.i_country_code]
  }

  function ExceptionInts(x: CeaException): (r: seq<int>)
    ensures |r| == 4
  {
    [x.i_in_band_refer, x.i_exception_major_channel_number, x.i_exception_minor_channel_number,
     x.exception_OOB_source_ID]
  }

  function Upto<T>(data: seq<T>, n: nat): (r: seq<T>)
    ensures |r| <= n && |r| <= |data|
  {
    if n <= |data| then data[..n] else data
  }

  function TextInts(t: MultiText): (r: seq<int>)
    ensures |r| <= 7 + Count(t.i_number_bytes)
  {
    TextHead(t) + Upto(t.compressed_str, Count(t.i_number_bytes))
  }

  function TextHead(t: MultiText): (r: seq<int>)
    ensures |r| == 7
  {
    [t.lang.0, t.lang.1, t.lang.2, t.i_type, t.i_compression_type, t.i_mode, t.i_number_bytes]
  }

  function DescriptorInts(d: Descriptor): (r: seq<int>)
    ensures |r| <= 2 + Count(d.i_length)
  {
    [d.i_tag, d.i_length] + Upto(d.p_data, Count(d.i_length))
  }

  function Identity(e: EasEvent): (r: seq<int>)
    ensures |r| == 8
  {
    [e.eas_section_count, e.table_id, e.extension, e.version, e.current_next, e.sequence_num,
     e.protocol_version, e.eas_event_id]
  }

  function Origin(e: EasEvent): (r: seq<int>)
    ensures |r| == 4
  {
    [e.eas_orig_code.0, e.eas_orig_code.1, e.eas_orig_code.2, e.eas_event_code_len]
  }

  function Details(e: EasEvent): (r: seq<int>)
    ensures |r| == 9
  {
    [e.alert_message_time_remaining, e.event_start_time, e.event_duration, e.alert_priority,
     e.details_OOB_source_ID, e.details_major_channel_number, e.details_minor_channel_number,
     e.audio_OOB_source_ID, e.location_count]
  }

  function CodeInts(e: EasEvent): seq<int> {
    Upto(e.eas_event_code, Count(e.eas_event_code_len))
  }

  function LocationsInts(e: EasEvent): seq<int> {
    Flat(LocationInts, Upto(e.location, Count(e.location_count)))
  }

  function ExceptionsInts(e: EasEvent): seq<int> {
    Flat(ExceptionInts, Upto(e.exception, Count(e.exception_count)))
  }

  function TextsInts(e: EasEvent): seq<int> {
    Flat(TextInts, Upto(e.multi_text, Count(e.multi_text_count)))
  }

  function DescriptorsInts(e: EasEvent): seq<int> {
    Flat(DescriptorInts, Upto(e.descriptor, Count(e.descriptor_text_count)))
  }

  function Front(e: EasEvent): seq<int> {
    Identity(e) + (Origin(e) + (CodeInts(e) + (Details(e) + LocationsInts(e))))
  }

  function Back(e: EasEvent): seq<int> {
    [e.exception_count] + (ExceptionsInts(e) + ([e.multi_text_count] + (TextsInts(e) +
    ([e.descriptor_text_count] + DescriptorsInts(e)))))
  }

  function Stream(e: EasEvent): seq<int> {
    Front(e) + Back(e)
  }

  lemma UptoNext<T>(data: seq<T>, j: nat)
    requires j < |data|
    ensures Upto(data, j + 1) == Upto(data, j) + [data[j]]
  {}

  lemma FlatNext<T(!new)>(enc: T -> seq<int>, data: seq<T>, j: nat)
    requires j < |data|
    ensures Flat(enc, Upto(data, j + 1)) == Flat(enc, Upto(data, j)) + enc(data[j])
  {
    UptoNext(data, j);
    assert (Upto(data, j) + [data[j]])[..j] == Upto(data, j);
  }

  lemma NoneFlat<T(!new)>(enc: T -> seq<int>, data: seq<T>)
    ensures Upto(data, 0) == [] && Flat(enc, Upto(data, 0)) == []
  {}

  // ---------------------------------------------------------------- written item by item

  method WriteIdentity(p: Parcel, e: EasEvent)
    modifies p
    ensures p.Integers() == old(p.Integers()) + Identity(e)
  {
    hide p.Integers;
    p.WriteInt32(e.eas_section_count);
    p.WriteInt32(e.table_id);
    p.WriteInt32(e.extension);
    p.WriteInt32(e.version);
    p.WriteInt32(e.current_next);
    p.WriteInt32(e.sequence_num);
    p.WriteInt32(e.protocol_version);
    p.WriteInt32(e.eas_event_id);
  }

  method WriteOrigin(p: Parcel, e: EasEvent)
    modifies p
    ensures p.Integers() == old(p.Integers()) + Origin(e)
  {
    hide p.Integers;
    p.WriteInt32(e.eas_orig_code.0);
    p.WriteInt32(e.eas_orig_code.1);
    p.WriteInt32(e.eas_orig_code.2);
    p.WriteInt32(e.eas_event_code_len);
  }

  method WriteDetails(p: Parcel, e: EasEvent)
    modifies p
    ensures p.Integers() == old(p.Integers()) + Details(e)
  {
    hide p.Integers;
    p.WriteInt32(e.alert_message_time_remaining);
    p.WriteInt32(e.event_start_time);
    p.WriteInt32(e.event_duration);
    p.WriteInt32(e.alert_priority);
    p.WriteInt32(e.details_OOB_source_ID);
    p.WriteInt32(e.details_major_channel_number);
    p.WriteInt32(e.details_minor_channel_number);
    p.WriteInt32(e.audio_OOB_source_ID);
    p.WriteInt32(e.location_count);
  }

  method WriteCodeInts(p: Parcel, e: EasEvent)
    requires Valid(e)
    modifies p
    ensures p.Integers() == old(p.Integers()) + CodeInts(e)
  {
    hide p.Integers;
    assert Upto(e.eas_event_code, 0) == [];
    for j := 0 to Count(e.eas_event_code_len)
      invariant p.Integers() == old(p.Integers()) + Upto(e.eas_event_code, j)
    {
      p.WriteInt32(e.eas_event_code[j]);
      UptoNext(e.eas_event_code, j);
    }
  }

  method WriteLocationsInts(p: Parcel, e: EasEvent)
    requires Valid(e)
    modifies p
    ensures p.Integers() == old(p.Integers()) + LocationsInts(e)
  {
    hide p.Integers, Flat;
    NoneFlat(LocationInts, e.location);
    for j := 0 to Count(e.location_count)
      invariant p.Integers() == old(p.Integers()) + Flat(LocationInts, Upto(e.location, j))
    {
      var l := e.location[j];
      p.WriteInt32(l.i_state_code);
      p.WriteInt32(l.i_country_subdiv);
      p.WriteInt32(l.i_country_code);
      FlatNext(LocationInts, e.location, j);
    }
  }

  method WriteExceptionsInts(p: Parcel, e: EasEvent)
    requires Valid(e)
    modifies p
    ensures p.Integers() == old(p.Integers()) + ExceptionsInts(e)
  {
    hide p.Integers, Flat;
    NoneFlat(ExceptionInts, e.exception);
    for j := 0 to Count(e.exception_count)
      invariant p.Integers() == old(p.Integers()) + Flat(ExceptionInts, Upto(e.exception, j))
    {
      var x := e.exception[j];
      p.WriteInt32(x.i_in_band_refer);
      p.WriteInt32(x.i_exception_major_channel_number);
      p.WriteInt32(x.i_exception_minor_channel_number);
      p.WriteInt32(x.exception_OOB_source_ID);
      FlatNext(ExceptionInts, e.exception, j);
    }
  }

  method WriteTextHead(p: Parcel, t: MultiText)
    modifies p
    ensures p.Integers() == old(p.Integers()) + TextHead(t)
  {
    hide p.Integers;
    p.WriteInt32(t.lang.0);
    p.WriteInt32(t.lang.1);
    p.WriteInt32(t.lang.2);
    p.WriteInt32(t.i_type);
    p.WriteInt32(t.i_compression_type);
    p.WriteInt32(t.i_mode);
    p.WriteInt32(t.i_number_bytes);
  }

  method WriteText(p: Parcel, t: MultiText)
    requires ValidText(t)
    modifies p
    ensures p.Integers() == old(p.Integers()) + TextInts(t)
  {
    hide p.Integers, TextHead;
    assert Upto(t.compressed_str, 0) == [];
    WriteTextHead(p, t);
    ghost var head := p.Integers();
    for k := 0 to Count(t.i_number_bytes)
      invariant p.Integers() == head + Upto(t.compressed_str, k)
    {
      p.WriteInt32(t.compressed_str[k]);
      UptoNext(t.compressed_str, k);
    }
  }

  method WriteTextsInts(p: Parcel, e: EasEvent)
    requires Valid(e)
    modifies p
    ensures p.Integers() == old(p.Integers()) + TextsInts(e)
  {
    hide p.Integers, Flat, TextInts;
    NoneFlat(TextInts, e.multi_text);
    for j := 0 to Count(e.multi_text_count)
      invariant p.Integers() == old(p.Integers()) + Flat(TextInts, Upto(e.multi_text, j))
    {
      WriteText(p, e.multi_text[j]);
      FlatNext(TextInts, e.multi_text, j);
    }
  }

  method WriteDescriptor(p: Parcel, d: Descriptor)
    requires ValidDescriptor(d)
    modifies p
    ensures p.Integers() == old(p.Integers()) + DescriptorInts(d)
  {
    hide p.Integers;
    assert Upto(d.p_data, 0) == [];
    p.WriteInt32(d.i_tag);
    p.WriteInt32(d.i_length);
    ghost var head := p.Integers();
    for k := 0 to Count(d.i_length)
      invariant p.Integers() == head + Upto(d.p_data, k)
    {
      p.WriteInt32(d.p_data[k]);
      UptoNext(d.p_data, k);
    }
  }

  method WriteDescriptorsInts(p: Parcel, e: EasEvent)
    requires Valid(e)
    modifies p
    ensures p.Integers() == old(p.Integers()) + DescriptorsInts(e)
  {
    hide p.Integers, Flat, DescriptorInts;
    NoneFlat(DescriptorInts, e.descriptor);
    for j := 0 to Count(e.descriptor_text_count)
      invariant p.Integers() == old(p.Integers()) + Flat(DescriptorInts, Upto(e.descriptor, j))
    {
      WriteDescriptor(p, e.descriptor[j]);
      FlatNext(DescriptorInts, e.descriptor, j);
    }
  }

  method WriteFront(p: Parcel, e: EasEvent)
    requires Valid(e)
    modifies p
    ensures p.Integers() == old(p.Integers()) + Front(e)
  {
    hide Identity, Origin, CodeInts, Details, LocationsInts, p.Integers;
    WriteIdentity(p, e);
    WriteOrigin(p, e);
    WriteCodeInts(p, e);
    WriteDetails(p, e);
    WriteLocationsInts(p, e);
  }

  method WriteBack(p: Parcel, e: EasEvent)
    requires Valid(e)
    modifies p
    ensures p.Integers() == old(p.Integers()) + Back(e)
  {
    hide ExceptionsInts, TextsInts, DescriptorsInts, p.Integers;
    p.WriteInt32(e.exception_count);
    WriteExceptionsInts(p, e);
    p.WriteInt32(e.multi_text_count);
    WriteTextsInts(p, e);
    p.WriteInt32(e.descriptor_text_count);
    WriteDescriptorsInts(p, e);
  }

  /** The reference: the event written to a Parcel in order. */
  method WriteParcel(e: EasEvent) returns (p: Parcel)
    requires Valid(e)
    ensures fresh(p) && p.Integers() == Stream(e)
  {
    hide Front, Back;
    p := new Parcel();
    WriteFront(p, e);
    WriteBack(p, e);
  }

  // ---------------------------------------------------------------- written with a running index

  /** Assigns the slot at the running index and moves the index on. */
  method PutNext(body: array<int>, index: nat, v: int) returns (next: nat)
    requires index < body.Length
    modifies body
    ensures next == index + 1
    ensures body[..next] == old(body[..index]) + [v]
  {
    body[index] := v;
    next := index + 1;
  }

  method PutIdentity(body: array<int>, index: nat, e: EasEvent) returns (next: nat)
    requires index + 8 <= body.Length
    modifies body
    ensures next == index + |Identity(e)| <= index + 8
    ensures body[..next] == old(body[..index]) + Identity(e)
  {
    next := index;
    next := PutNext(body, next, e.eas_section_count);
    next := PutNext(body, next, e.table_id);
    next := PutNext(body, next, e.extension);
    next := PutNext(body, next, e.version);
    next := PutNext(body, next, e.current_next);
    next := PutNext(body, next, e.sequence_num);
    next := PutNext(body, next, e.protocol_version);
    next := PutNext(body, next, e.eas_event_id);
  }

  method PutOrigin(body: array<int>, index: nat, e: EasEvent) returns (next: nat)
    requires index + 4 <= body.Length
    modifies body
    ensures next == index + |Origin(e)| <= index + 4
    ensures body[..next] == old(body[..index]) + Origin(e)
  {
    next := index;
    next := PutNext(body, next, e.eas_orig_code.0);
    next := PutNext(body, next, e.eas_orig_code.1);
    next := PutNext(body, next, e.eas_orig_code.2);
    next := PutNext(body, next, e.eas_event_code_len);
  }

  method PutDetails(body: array<int>, index: nat, e: EasEvent) returns (next: nat)
    requires index + 9 <= body.Length
    modifies body
    ensures next == index + |Details(e)| <= index + 9
    ensures body[..next] == old(body[..index]) + Details(e)
  {
    next := index;
    next := PutNext(body, next, e.alert_message_time_remaining);
    next := PutNext(body, next, e.event_start_time);
    next := PutNext(body, next, e.event_duration);
    next := PutNext(body, next, e.alert_priority);
    next := PutNext(body, next, e.details_OOB_source_ID);
    next := PutNext(body, next, e.details_major_channel_number);
    next := PutNext(body, next, e.details_minor_channel_number);
    next := PutNext(body, next, e.audio_OOB_source_ID);
    next := PutNext(body, next, e.location_count);
  }

  method PutData(body: array<int>, index: nat, data: seq<int>, n: nat) returns (next: nat)
    requires n <= |data| && index + n <= body.Length
    modifies body
    ensures next == index + n
    ensures body[..next] == old(body[..index]) + Upto(data, n)
  {
    next := index;
    for j := 0 to n
      invariant next == index + j
      invariant body[..next] == old(body[..index]) + Upto(data, j)
    {
      next := PutNext(body, next, data[j]);
      UptoNext(data, j);
    }
  }

  method PutCodeInts(body: array<int>, index: nat, e: EasEvent) returns (next: nat)
    requires Valid(e)
    requires index + 64 <= body.Length
    modifies body
    ensures next == index + |CodeInts(e)| <= index + 64
    ensures body[..next] == old(body[..index]) + CodeInts(e)
  {
    next := PutData(body, index, e.eas_event_code, Count(e.eas_event_code_len));
  }

  method PutLocationsInts(body: array<int>, index: nat, e: EasEvent) returns (next: nat)
    requires Valid(e)
    requires index + 192 <= body.Length
    modifies body
    ensures next == index + |LocationsInts(e)| <= index + 192
    ensures body[..next] == old(body[..index]) + LocationsInts(e)
  {
    hide Flat;
    NoneFlat(LocationInts, e.location);
    next := index;
    for j := 0 to Count(e.location_count)
      invariant next == index + 3 * j == index + |Flat(LocationInts, Upto(e.location, j))|
      invariant body[..next] == old(body[..index]) + Flat(LocationInts, Upto(e.location, j))
    {
      var l := e.location[j];
      next := PutNext(body, next, l.i_state_code);
      next := PutNext(body, next, l.i_country_subdiv);
      next := PutNext(body, next, l.i_country_code);
      FlatNext(LocationInts, e.location, j);
    }
  }

  method PutExceptionsInts(body: array<int>, index: nat, e: EasEvent) returns (next: nat)
    requires Valid(e)
    requires index + 256 <= body.Length
    modifies body
    ensures next == index + |ExceptionsInts(e)| <= index + 256
    ensures body[..next] == old(body[..index]) + ExceptionsInts(e)
  {
    hide Flat;
    NoneFlat(ExceptionInts, e.exception);
    next := index;
    for j := 0 to Count(e.exception_count)
      invariant next == index + 4 * j == index + |Flat(ExceptionInts, Upto(e.exception, j))|
      invariant body[..next] == old(body[..index]) + Flat(ExceptionInts, Upto(e.exception, j))
    {
      var x := e.exception[j];
      next := PutNext(body, next, x.i_in_band_refer);
      next := PutNext(body, next, x.i_exception_major_channel_number);
      next := PutNext(body, next, x.i_exception_minor_channel_number);
      next := PutNext(body, next, x.exception_OOB_source_ID);
      FlatNext(ExceptionInts, e.exception, j);
    }
  }

  method PutTextHead(body: array<int>, index: nat, t: MultiText) returns (next: nat)
    requires index + 7 <= body.Length
    modifies body
    ensures next == index + 7 && body[..next] == old(body[..index]) + TextHead(t)
  {
    next := index;
    next := PutNext(body, next, t.lang.0);
    next := PutNext(body, next, t.lang.1);
    next := PutNext(body, next, t.lang.2);
    next := PutNext(body, next, t.i_type);
    next := PutNext(body, next, t.i_compression_type);
    next := PutNext(body, next, t.i_mode);
    next := PutNext(body, next, t.i_number_bytes);
  }

  method PutText(body: array<int>, index: nat, t: MultiText) returns (next: nat)
    requires ValidText(t) && index + 71 <= body.Length
    modifies body
    ensures next == index + |TextInts(t)| <= index + 71
    ensures body[..next] == old(body[..index]) + TextInts(t)
  {
    hide TextHead;
    next := PutTextHead(body, index, t);
    next := PutData(body, next, t.compressed_str, Count(t.i_number_bytes));
  }

  method PutTextsInts(body: array<int>, index: nat, e: EasEvent) returns (next: nat)
    requires Valid(e)
    requires index + 142 <= body.Length
    modifies body
    ensures next == index + |TextsInts(e)| <= index + 142
    ensures body[..next] == old(body[..index]) + TextsInts(e)
  {
    hide Flat, TextInts;
    NoneFlat(TextInts, e.multi_text);
    next := index;
    for j := 0 to Count(e.multi_text_count)
      invariant next == index + |Flat(TextInts, Upto(e.multi_text, j))| <= index + 71 * j
      invariant body[..next] == old(body[..index]) + Flat(TextInts, Upto(e.multi_text, j))
    {
      next := PutText(body, next, e.multi_text[j]);
      FlatNext(TextInts, e.multi_text, j);
    }
  }

  method PutDescriptor(body: array<int>, index: nat, d: Descriptor) returns (next: nat)
    requires ValidDescriptor(d) && index + 66 <= body.Length
    modifies body
    ensures next == index + |DescriptorInts(d)| <= index + 66
    ensures body[..next] == old(body[..index]) + DescriptorInts(d)
  {
    next := index;
    next := PutNext(body, next, d.i_tag);
    next := PutNext(body, next, d.i_length);
    next := PutData(body, next, d.p_data, Count(d.i_length));
  }

  method PutDescriptorsInts(body: array<int>, index: nat, e: EasEvent) returns (next: nat)
    requires Valid(e)
    requires index + 132 <= body.Length
    modifies body
    ensures next == index + |DescriptorsInts(e)| <= index + 132
    ensures body[..next] == old(body[..index]) + DescriptorsInts(e)
  {
    hide Flat, DescriptorInts;
    NoneFlat(DescriptorInts, e.descriptor);
    next := index;
    for j := 0 to Count(e.descriptor_text_count)
      invariant next == index + |Flat(DescriptorInts, Upto(e.descriptor, j))| <= index + 66 * j
      invariant body[..next] == old(body[..index]) + Flat(DescriptorInts, Upto(e.descriptor, j))
    {
      next := PutDescriptor(body, next, e.descriptor[j]);
      FlatNext(DescriptorInts, e.descriptor, j);
    }
  }

  method PutFront(body: array<int>, index: nat, e: EasEvent) returns (next: nat)
    requires Valid(e) && index + 277 <= body.Length
    modifies body
    ensures index <= next <= index + 277
    ensures body[..next] == old(body[..index]) + Front(e)
  {
    hide Identity, Origin, CodeInts, Details, LocationsInts;
    next := PutIdentity(body, index, e);
    next := PutOrigin(body, next, e);
    next := PutCodeInts(body, next, e);
    next := PutDetails(body, next, e);
    next := PutLocationsInts(body, next, e);
  }

  method PutBack(body: array<int>, index: nat, e: EasEvent) returns (next: nat)
    requires Valid(e) && index + 533 <= body.Length
    modifies body
    ensures index <= next <= index + 533
    ensures body[..next] == old(body[..index]) + Back(e)
  {
    hide ExceptionsInts, TextsInts, DescriptorsInts;
    next := PutNext(body, index, e.exception_count);
    next := PutExceptionsInts(body, next, e);
    next := PutNext(body, next, e.multi_text_count);
    next := PutTextsInts(body, next, e);
    next := PutNext(body, next, e.descriptor_text_count);
    next := PutDescriptorsInts(body, next, e);
  }

  /** The running-index form: no more than 810 of the 1024 slots are used, and they hold the integers of
      the Parcel. */
  method FillArray(e: EasEvent) returns (body: array<int>, index: nat)
    requires Valid(e)
    ensures body.Length == SLOTS && index <= 810
    ensures body[..index] == Stream(e)
  {
    hide Front, Back;
    body := new int[SLOTS];
    index := PutFront(body, 0, e);
    index := PutBack(body, index, e);
  }

  // ---------------------------------------------------------------- reading the integers back

  datatype Parsed<T> = Ok(value: T, rest: seq<int>) | Fail

  function Take(n: nat, s: seq<int>): Parsed<seq<int>> {
    if n <= |s| then Ok(s[..n], s[n..]) else Fail
  }

  function ParseMany<T>(parse: seq<int> -> Parsed<T>, n: nat, s: seq<int>): Parsed<seq<T>> {
    if n == 0 then Ok([], s)
    else
      match parse(s)
      case Fail => Fail
      case Ok(x, rest) =>
        match ParseMany(parse, n - 1, rest)
        case Fail => Fail
        case Ok(xs, rest') => Ok([x] + xs, rest')
  }

  function ParseLocation(s: seq<int>): Parsed<CeaLocation> {
    if |s| < 3 then Fail else Ok(CeaLocation(s[0], s[1], s[2]), s[3..])
  }

  function ParseException(s: seq<int>): Parsed<CeaException> {
    if |s| < 4 then Fail else Ok(CeaException(s[0], s[1], s[2], s[3]), s[4..])
  }

  function ParseText(s: seq<int>): Parsed<MultiText> {
    if |s| < 7 then Fail
    else
      match Take(Count(s[6]), s[7..])
      case Fail => Fail
      case Ok(data, rest) => Ok(MultiText((s[0], s[1], s[2]), s[3], s[4], s[5], s[6], data), rest)
  }

  function ParseDescriptor(s: seq<int>): Parsed<Descriptor> {
    if |s| < 2 then Fail
    else
      match Take(Count(s[1]), s[2..])
      case Fail => Fail
      case Ok(data, rest) => Ok(Descriptor(s[0], s[1], data), rest)
  }

  datatype FrontPart = FrontPart(identity: seq<int>, origin: seq<int>, code: seq<int>, details: seq<int>,
                                 location: seq<CeaLocation>)

  datatype BackPart = BackPart(exception_count: int, exception: seq<CeaException>,
                               multi_text_count: int, multi_text: seq<MultiText>,
                               descriptor_text_count: int, descriptor: seq<Descriptor>)

  function ParseFront(s: seq<int>): Parsed<FrontPart> {
    if |s| < 12 then Fail
    else
      match Take(Count(s[11]), s[12..])
      case Fail => Fail
      case Ok(code, s1) =>
        match Take(9, s1)
        case Fail => Fail
        case Ok(details, s2) =>
          match ParseMany(ParseLocation, Count(details[8]), s2)
          case Fail => Fail
          case Ok(locations, rest) => Ok(FrontPart(s[..8], s[8..12], code, details, locations), rest)
  }

  function ParseBack(s: seq<int>): Parsed<BackPart> {
    if s == [] then Fail
    else
      match ParseMany(ParseException, Count(s[0]), s[1..])
      case Fail => Fail
      case Ok(exceptions, s1) =>
        if s1 == [] then Fail
        else
          match ParseMany(ParseText, Count(s1[0]), s1[1..])
          case Fail => Fail
          case Ok(texts, s2) =>
            if s2 == [] then Fail
            else
              match ParseMany(ParseDescriptor, Count(s2[0]), s2[1..])
              case Fail => Fail
              case Ok(descriptors, rest) =>
                Ok(BackPart(s[0], exceptions, s1[0], texts, s2[0], descriptors), rest)
  }

  function Join(f: FrontPart, b: BackPart): EasEvent
    requires |f.identity| == 8 && |f.origin| == 4 && |f.details| == 9
  {
    var (h, o, d) := (f.identity, f.origin, f.details);
    EasEvent(h[0], h[1], h[2], h[3], h[4], h[5], h[6], h[7], (o[0], o[1], o[2]), o[3], f.code,
             d[0], d[1], d[2], d[3], d[4], d[5], d[6], d[7], d[8], f.location,
             b.exception_count, b.exception, b.multi_text_count, b.multi_text,
             b.descriptor_text_count, b.descriptor)
  }

  /** A reader that knows only the integers and where they start. */
  function Parse(s: seq<int>): Parsed<EasEvent> {
    match ParseFront(s)
    case Fail => Fail
    case Ok(f, s1) =>
      match ParseBack(s1)
      case Fail => Fail
      case Ok(b, rest) =>
        if |f.identity| == 8 && |f.origin| == 4 && |f.details| == 9 then Ok(Join(f, b), rest) else Fail
  }

  // ---------------------------------------------------------------- what is sent is recovered

  function SentText(t: MultiText): MultiText {
    t.(compressed_str := Upto(t.compressed_str, Count(t.i_number_bytes)))
  }

  function SentDescriptor(d: Descriptor): Descriptor {
    d.(p_data := Upto(d.p_data, Count(d.i_length)))
  }

  function Each<T>(f: T -> T, xs: seq<T>): (r: seq<T>)
    ensures |r| == |xs|
  {
    seq(|xs|, i requires 0 <= i < |xs| => f(xs[i]))
  }

  /** What of an event is sent: the counted part of every array. */
  function Transmitted(e: EasEvent): EasEvent {
    e.(eas_event_code := CodeInts(e),
       location := Upto(e.location, Count(e.location_count)),
       exception := Upto(e.exception, Count(e.exception_count)),
       multi_text := Each(SentText, Upto(e.multi_text, Count(e.multi_text_count))),
       descriptor := Each(SentDescriptor, Upto(e.descriptor, Count(e.descriptor_text_count))))
  }

  ghost predicate Inverts<T(!new)>(parse: seq<int> -> Parsed<T>, enc: T -> seq<int>, sent: T -> T, x: T) {
    forall r :: parse(enc(x) + r) == Ok(sent(x), r)
  }

  lemma {:induction false} FlatFront<T(!new)>(enc: T -> seq<int>, xs: seq<T>)
    requires xs != []
    ensures Flat(enc, xs) == enc(xs[0]) + Flat(enc, xs[1..])
    decreases |xs|
  {
    var n := |xs| - 1;
    if n == 0 {
      assert xs[..n] == [] && xs[1..] == [];
    } else {
      FlatFront(enc, xs[..n]);
      assert xs[1..][..n - 1] == xs[..n][1..];
      Assoc(enc(xs[0]), Flat(enc, xs[..n][1..]), enc(xs[n]));
    }
  }

  /** If each element can be read back whatever follows it, so can a list of known length. */
  lemma {:induction false} ManyInverts<T(!new)>(parse: seq<int> -> Parsed<T>, enc: T -> seq<int>, sent: T -> T,
                                                xs: seq<T>, rest: seq<int>)
    requires forall x :: x in xs ==> Inverts(parse, enc, sent, x)
    ensures ParseMany(parse, |xs|, Flat(enc, xs) + rest) == Ok(Each(sent, xs), rest)
    decreases |xs|
  {
    if xs == [] {
      assert Flat(enc, xs) + rest == rest;
    } else {
      FlatFront(enc, xs);
      ManyInverts(parse, enc, sent, xs[1..], rest);
      var tail := Flat(enc, xs[1..]) + rest;
      Assoc(enc(xs[0]), Flat(enc, xs[1..]), rest);
      assert Inverts(parse, enc, sent, xs[0]);
      assert parse(enc(xs[0]) + tail) == Ok(sent(xs[0]), tail);
      assert Each(sent, xs) == [sent(xs[0])] + Each(sent, xs[1..]);
    }
  }

  lemma TakeFirst(a: seq<int>, r: seq<int>)
    ensures Take(|a|, a + r) == Ok(a, r)
  {
    assert (a + r)[..|a|] == a && (a + r)[|a|..] == r;
  }

  lemma LocationInverts(l: CeaLocation)
    ensures Inverts(ParseLocation, LocationInts, Same, l)
  {
    forall r ensures ParseLocation(LocationInts(l) + r) == Ok(l, r) {
      TakeFirst(LocationInts(l), r);
    }
  }

  lemma ExceptionInverts(x: CeaException)
    ensures Inverts(ParseException, ExceptionInts, Same, x)
  {
    forall r ensures ParseException(ExceptionInts(x) + r) == Ok(x, r) {
      TakeFirst(ExceptionInts(x), r);
    }
  }

  lemma TextInverts(t: MultiText)
    requires ValidText(t)
    ensures Inverts(ParseText, TextInts, SentText, t)
  {
    forall r ensures ParseText(TextInts(t) + r) == Ok(SentText(t), r) {
      var data := Upto(t.compressed_str, Count(t.i_number_bytes));
      var head := [t.lang.0, t.lang.1, t.lang.2, t.i_type, t.i_compression_type, t.i_mode, t.i_number_bytes];
      Assoc(head, data, r);
      TakeFirst(head, data + r);
      TakeFirst(data, r);
    }
  }

  lemma DescriptorInverts(d: Descriptor)
    requires ValidDescriptor(d)
    ensures Inverts(ParseDescriptor, DescriptorInts, SentDescriptor, d)
  {
    forall r ensures ParseDescriptor(DescriptorInts(d) + r) == Ok(SentDescriptor(d), r) {
      var data := Upto(d.p_data, Count(d.i_length));
      var head := [d.i_tag, d.i_length];
      Assoc(head, data, r);
      TakeFirst(head, data + r);
      TakeFirst(data, r);
    }
  }

  function Same<T>(x: T): T {
    x
  }

  lemma EachSame<T>(xs: seq<T>)
    ensures Each(Same, xs) == xs
  {
    forall i | 0 <= i < |xs| ensures Each(Same, xs)[i] == xs[i] {
      assert Same(xs[i]) == xs[i];
    }
  }

  lemma LocationsRead(e: EasEvent, r: seq<int>)
    requires Valid(e)
    ensures ParseMany(ParseLocation, Count(e.location_count), LocationsInts(e) + r)
            == Ok(Transmitted(e).location, r)
  {
    hide Inverts, Flat, ParseMany, Each;
    var ls := Upto(e.location, Count(e.location_count));
    forall l | l in ls ensures Inverts(ParseLocation, LocationInts, Same, l) {
      LocationInverts(l);
    }
    EachSame(ls);
    ManyInverts(ParseLocation, LocationInts, Same, ls, r);
  }

  lemma ExceptionsRead(e: EasEvent, r: seq<int>)
    requires Valid(e)
    ensures ParseMany(ParseException, Count(e.exception_count), ExceptionsInts(e) + r)
            == Ok(Transmitted(e).exception, r)
  {
    hide Inverts, Flat, ParseMany, Each;
    var xs := Upto(e.exception, Count(e.exception_count));
    forall x | x in xs ensures Inverts(ParseException, ExceptionInts, Same, x) {
      ExceptionInverts(x);
    }
    EachSame(xs);
    ManyInverts(ParseException, ExceptionInts, Same, xs, r);
  }

  lemma TextsRead(e: EasEvent, r: seq<int>)
    requires Valid(e)
    ensures ParseMany(ParseText, Count(e.multi_text_count), TextsInts(e) + r) == Ok(Transmitted(e).multi_text, r)
  {
    hide Inverts, Flat, ParseMany, Each;
    var ts := Upto(e.multi_text, Count(e.multi_text_count));
    forall t | t in ts ensures Inverts(ParseText, TextInts, SentText, t) {
      TextInverts(t);
    }
    ManyInverts(ParseText, TextInts, SentText, ts, r);
  }

  lemma DescriptorsRead(e: EasEvent, r: seq<int>)
    requires Valid(e)
    ensures ParseMany(ParseDescriptor, Count(e.descriptor_text_count), DescriptorsInts(e) + r)
            == Ok(Transmitted(e).descriptor, r)
  {
    hide Inverts, Flat, ParseMany, Each;
    var ds := Upto(e.descriptor, Count(e.descriptor_text_count));
    forall d | d in ds ensures Inverts(ParseDescriptor, DescriptorInts, SentDescriptor, d) {
      DescriptorInverts(d);
    }
    ManyInverts(ParseDescriptor, DescriptorInts, SentDescriptor, ds, r);
  }

  lemma FrontCut(all: seq<int>, h: seq<int>, o: seq<int>, rest: seq<int>)
    requires |h| == 8 && |o| == 4 && all == h + (o + rest)
    ensures all[..8] == h && all[8..12] == o && all[12..] == rest && all[11] == o[3]
  {}

  lemma FrontRead(e: EasEvent, r: seq<int>)
    requires Valid(e)
    ensures ParseFront(Front(e) + r)
            == Ok(FrontPart(Identity(e), Origin(e), CodeInts(e), Details(e), Transmitted(e).location), r)
  {
    hide LocationsInts, ParseMany, Transmitted, Identity;
    var r2 := LocationsInts(e) + r;
    var r1 := Details(e) + r2;
    assert Front(e) + r == Identity(e) + (Origin(e) + (CodeInts(e) + r1));
    var all := Front(e) + r;
    FrontCut(all, Identity(e), Origin(e), CodeInts(e) + r1);
    assert all[11] == Origin(e)[3] == e.eas_event_code_len;
    TakeFirst(CodeInts(e), r1);
    TakeFirst(Details(e), r2);
    LocationsRead(e, r);
  }

  lemma BackRead(e: EasEvent, r: seq<int>)
    requires Valid(e)
    ensures var t := Transmitted(e);
            ParseBack(Back(e) + r) == Ok(BackPart(e.exception_count, t.exception, e.multi_text_count, t.multi_text,
                                                  e.descriptor_text_count, t.descriptor), r)
  {
    hide ExceptionsInts, TextsInts, DescriptorsInts, ParseMany, Transmitted;
    var r2 := [e.descriptor_text_count] + (DescriptorsInts(e) + r);
    var r1 := [e.multi_text_count] + (TextsInts(e) + r2);
    BackShape(e, r);
    ExceptionsRead(e, r1);
    TextsRead(e, r2);
    DescriptorsRead(e, r);
  }

  lemma BackShape(e: EasEvent, r: seq<int>)
    ensures var r2 := [e.descriptor_text_count] + (DescriptorsInts(e) + r);
            var r1 := [e.multi_text_count] + (TextsInts(e) + r2);
            && Back(e) + r == [e.exception_count] + (ExceptionsInts(e) + r1)
            && (Back(e) + r)[1..] == ExceptionsInts(e) + r1
            && r1[1..] == TextsInts(e) + r2 && r2[1..] == DescriptorsInts(e) + r
  {
    hide ExceptionsInts, TextsInts, DescriptorsInts;
  }

  /** The encoding delimits itself: whatever follows it in the array, every transmitted field is
      recovered and reading stops at its end. */
  lemma StreamParses(e: EasEvent, r: seq<int>)
    requires Valid(e)
    ensures Parse(Stream(e) + r) == Ok(Transmitted(e), r)
  {
    hide Front, Back, ParseFront, ParseBack;
    Assoc(Front(e), Back(e), r);
    FrontRead(e, Back(e) + r);
    BackRead(e, r);
  }

  /** Two events that fill their arrays with the same integers agree on every transmitted field, even if
      what lies behind the encodings differs in length. */
  lemma StreamDeterminesEvent(e: EasEvent, f: EasEvent, r: seq<int>, q: seq<int>)
    requires Valid(e) && Valid(f)
    requires Stream(e) + r == Stream(f) + q
    ensures Transmitted(e) == Transmitted(f) && r == q
  {
    hide Stream, Transmitted, Parse;
    StreamParses(e, r);
    StreamParses(f, q);
  }
}
