/**
 The message codec: what is written is read back, and what is read is, up to the order of map
 entries, what would have been written. Also the exact length of every message.
 */
module ProtocolLaws {
  import opened Bytes
  import BV = BridgeValue
  import D = Decoding
  import CL = CodecLaws
  import opened MapOrder
  import opened Protocol

  // ---------------------------------------------------------------- kinds

  /** Length and first letter tell the kinds apart. */
  function KindShape(kind: Kind): (nat, byte) {
    match kind
    case HelloKind => (5, 'h' as int)
    case LoadKind => (4, 'l' as int)
    case EnableKind => (6, 'e' as int)
    case InvokeKind => (6, 'i' as int)
    case DisableKind => (7, 'd' as int)
    case ShutdownKind => (8, 's' as int)
    case OkKind => (2, 'o' as int)
    case ResultKind => (6, 'r' as int)
    case ErrorKind => (5, 'e' as int)
    case BridgeInvokeKind => (13, 'b' as int)
    case RetainHandleKind => (13, 'r' as int)
    case ReleaseHandleKind => (14, 'r' as int)
    case CallbackResultKind => (15, 'c' as int)
    case CallbackErrorKind => (14, 'c' as int)
  }

  lemma KindTextShape(kind: Kind)
    ensures |KindText(kind)| == KindShape(kind).0 && KindText(kind)[0] == KindShape(kind).1
  {
  }

  lemma KindTextInjective(a: Kind, b: Kind)
    requires KindText(a) == KindText(b)
    ensures a == b
  {
    hide KindText;
    KindTextShape(a);
    KindTextShape(b);
  }

  lemma ParseKindRoundTrip(kind: Kind)
    ensures ParseKind(KindText(kind)) == Some(kind)
  {
    hide KindText;
    forall other: Kind | KindText(other) == KindText(kind) ensures other == kind {
      KindTextInjective(other, kind);
    }
  }

  /** A kind string means a kind exactly when it is that kind's string. */
  lemma ParseKindExact(t: Text, kind: Kind)
    ensures ParseKind(t) == Some(kind) <==> t == KindText(kind)
  {
    ParseKindRoundTrip(kind);
    hide KindText;
  }

  // ---------------------------------------------------------------- payload maps

  lemma {:induction false} GatherAt(f: seq<Entry>, names: seq<Text>)
    requires forall i | 0 <= i < |names| :: HasKey(f, names[i])
    ensures |Gather(f, names)| == |names|
    ensures forall i | 0 <= i < |names| ::
              BV.Find(f, names[i]).Some? && Gather(f, names)[i] == BV.Entry(names[i], BV.Find(f, names[i]).value)
  {
    hide BV.Find, HasKey;
    if names != [] {
      assert forall i | 0 <= i < |names| - 1 :: names[1..][i] == names[i + 1];
      FindFirst(f, names[0]);
      GatherAt(f, names[1..]);
    }
  }

  lemma GatherEquals(f: seq<Entry>, names: seq<Text>, c: seq<Entry>)
    requires forall i | 0 <= i < |names| :: HasKey(f, names[i])
    requires |c| == |names| && forall i | 0 <= i < |c| :: c[i].key == names[i]
    ensures Gather(f, names) == c <==> forall i | 0 <= i < |names| :: BV.Find(f, names[i]) == Some(c[i].value)
  {
    hide BV.Find, HasKey, Gather;
    GatherAt(f, names);
    var g := Gather(f, names);
    assert g == c <==> forall i | 0 <= i < |names| :: g[i] == c[i];
  }

  lemma FieldNames(body: MessageBody)
    requires Validate(body).Success?
    ensures |Fields(body)| == |Names(KindOf(body))|
    ensures forall i | 0 <= i < |Fields(body)| :: Fields(body)[i].key == Names(KindOf(body))[i]
  {
    hide Validate;
  }

  /** No payload has two fields of one name: the names of each kind differ in length. */
  lemma NamesDistinct(kind: Kind)
    ensures Distinct(Names(kind))
  {
  }

  lemma FieldsDistinct(body: MessageBody)
    requires Validate(body).Success?
    ensures BV.DistinctKeys(Fields(body))
  {
    hide Validate, Fields, Names;
    FieldNames(body);
    NamesDistinct(KindOf(body));
  }

  lemma ValidIds(body: MessageBody)
    requires Validate(body).Success?
    ensures body.Load? ==> 0 < body.pluginId < I64_LIMIT && 0 < body.session < I64_LIMIT
    ensures body.Invoke? ==> body.callbackId < I64_LIMIT
    ensures body.RetainHandle? || body.ReleaseHandle? ==>
              0 < body.objectId < I64_LIMIT && 0 < body.generation < I64_LIMIT
  {
    hide Blank, BV.Kebab;
  }

  /** What a payload's named fields say about a body. */
  ghost predicate Reads(kind: Kind, f: seq<Entry>, body: MessageBody)
    requires forall i | 0 <= i < |Names(kind)| :: HasKey(f, Names(kind)[i])
    requires Validate(body).Success?
  {
    BodyFromFields(kind, f) == Success(body) <==>
    kind == KindOf(body) && Gather(f, Names(kind)) == Fields(body)
  }

  predicate HasNames(kind: Kind, f: seq<Entry>) {
    forall i | 0 <= i < |Names(kind)| :: HasKey(f, Names(kind)[i])
  }

  lemma ReadsShort(kind: Kind, f: seq<Entry>, body: MessageBody)
    requires |Names(kind)| <= 1 && HasNames(kind, f) && Validate(body).Success?
    ensures Reads(kind, f, body)
  {
    hide BV.Find, HasKey, Ascii, Gather, Validate;
    ValidIds(body);
    if kind == KindOf(body) {
      FieldNames(body);
      GatherEquals(f, Names(kind), Fields(body));
      if |Names(kind)| == 1 {
        assert Names(kind)[0] == Fields(body)[0].key;
      }
    }
  }

  lemma ReadsPair(kind: Kind, f: seq<Entry>, body: MessageBody)
    requires (kind.ErrorKind? || kind.BridgeInvokeKind?) && HasNames(kind, f) && Validate(body).Success?
    ensures Reads(kind, f, body)
  {
    hide BV.Find, HasKey, Ascii, Gather, Validate;
    ValidIds(body);
    if kind == KindOf(body) {
      FieldNames(body);
      GatherEquals(f, Names(kind), Fields(body));
      assert Names(kind)[0] == Fields(body)[0].key;
      assert Names(kind)[1] == Fields(body)[1].key;
    }
  }

  lemma ReadsHandle(kind: Kind, f: seq<Entry>, body: MessageBody)
    requires (kind.RetainHandleKind? || kind.ReleaseHandleKind?) && HasNames(kind, f) && Validate(body).Success?
    ensures Reads(kind, f, body)
  {
    hide BV.Find, HasKey, Ascii, Gather, Validate;
    ValidIds(body);
    if kind == KindOf(body) {
      FieldNames(body);
      GatherEquals(f, Names(kind), Fields(body));
      assert Names(kind)[0] == Fields(body)[0].key;
      assert Names(kind)[1] == Fields(body)[1].key;
    }
  }

  lemma ReadsLoad(f: seq<Entry>, body: MessageBody)
    requires HasNames(LoadKind, f) && Validate(body).Success?
    ensures Reads(LoadKind, f, body)
  {
    hide BV.Find, HasKey, Ascii, Gather, Validate;
    ValidIds(body);
    if body.Load? {
      FieldNames(body);
      GatherEquals(f, Names(LoadKind), Fields(body));
      assert Names(LoadKind)[0] == Fields(body)[0].key;
      assert Names(LoadKind)[1] == Fields(body)[1].key;
      assert Names(LoadKind)[2] == Fields(body)[2].key;
      assert Names(LoadKind)[3] == Fields(body)[3].key;
    }
  }

  lemma ReadsInvoke(f: seq<Entry>, body: MessageBody)
    requires HasNames(InvokeKind, f) && Validate(body).Success?
    ensures Reads(InvokeKind, f, body)
  {
    hide BV.Find, HasKey, Ascii, Gather, Validate;
    ValidIds(body);
    if body.Invoke? {
      FieldNames(body);
      GatherEquals(f, Names(InvokeKind), Fields(body));
      assert Names(InvokeKind)[0] == Fields(body)[0].key;
      assert Names(InvokeKind)[1] == Fields(body)[1].key;
      assert Names(InvokeKind)[2] == Fields(body)[2].key;
    }
  }

  /** Reading the fields by name gives a body exactly when they are that body's fields. */
  lemma BodyFromFieldsExact(kind: Kind, f: seq<Entry>, body: MessageBody)
    requires HasNames(kind, f) && Validate(body).Success?
    ensures Reads(kind, f, body)
  {
    hide Reads, HasKey, Validate;
    match kind
    case LoadKind => ReadsLoad(f, body);
    case InvokeKind => ReadsInvoke(f, body);
    case ErrorKind => ReadsPair(kind, f, body);
    case BridgeInvokeKind => ReadsPair(kind, f, body);
    case RetainHandleKind => ReadsHandle(kind, f, body);
    case ReleaseHandleKind => ReadsHandle(kind, f, body);
    case _ => ReadsShort(kind, f, body);
  }

  lemma ValidateInFromFields(kind: Kind, f: seq<Entry>, body: MessageBody)
    ensures BodyFromFields(kind, f) == Success(body) ==> kind == KindOf(body)
  {
    hide BV.Find, Ascii;
  }

  /** The payload maps that mean a body are exactly the rearrangements of its fields. */
  lemma PayloadExact(kind: Text, payload: Value, body: MessageBody)
    ensures BodyFromValue(kind, payload) == Success(body) <==>
            && Validate(body).Success? && kind == KindText(KindOf(body))
            && payload.Map? && multiset(payload.entries) == multiset(Fields(body))
  {
    hide Validate, Fields, Names, KindText, ParseKind, BodyFromFields, HasKey, BV.Find, Gather, Distinct;
    var k := KindOf(body);
    ParseKindExact(kind, k);
    if BodyFromValue(kind, payload).Success? {
      ParseKindExact(kind, ParseKind(kind).value);
      ValidateInFromFields(ParseKind(kind).value, payload.entries, body);
    }
    if Validate(body).Success? && kind == KindText(k) && payload.Map? {
      NamesDistinct(k);
      FieldNames(body);
      FieldsDistinct(body);
      if HasNames(k, payload.entries) && |payload.entries| == |Names(k)| {
        BodyFromFieldsExact(k, payload.entries, body);
        Pigeonhole(payload.entries, Names(k));
      }
      if multiset(payload.entries) == multiset(Fields(body)) {
        RearrangementLength(payload.entries, Fields(body));
        GatherRearranged(payload.entries, Fields(body), Names(k));
      }
    }
  }

  /** Gathering from a rearrangement restores the order. */
  lemma GatherRearranged(entries: seq<Entry>, canonical: seq<Entry>, names: seq<Text>)
    requires multiset(entries) == multiset(canonical) && BV.DistinctKeys(canonical)
    requires |canonical| == |names| && forall i | 0 <= i < |names| :: canonical[i].key == names[i]
    ensures forall i | 0 <= i < |names| :: HasKey(entries, names[i])
    ensures Gather(entries, names) == canonical
  {
    hide BV.Find, HasKey, Gather;
    forall i | 0 <= i < |names|
      ensures HasKey(entries, names[i]) && BV.Find(entries, names[i]) == Some(canonical[i].value)
    {
      FindInRearrangement(entries, canonical, i);
    }
    GatherEquals(entries, names, canonical);
  }

  // ---------------------------------------------------------------- envelopes

  /** A map that is, up to the order of entries at both levels, the envelope of `body` under
      request ID `id`. */
  ghost predicate Carries(v: Value, id: u64, body: MessageBody) {
    && 0 < id < I64_LIMIT && Validate(body).Success? && v.Map?
    && exists payload: seq<Entry> ::
         && multiset(payload) == multiset(Fields(body))
         && multiset(v.entries) == multiset(Envelope(id, KindText(KindOf(body)), payload))
  }

  lemma EnvelopeDistinct(id: u64, kind: Text, payload: seq<Entry>)
    requires id < I64_LIMIT
    ensures Distinct(EnvelopeNames())
    ensures BV.DistinctKeys(Envelope(id, kind, payload))
    ensures |Envelope(id, kind, payload)| == |EnvelopeNames()|
    ensures forall i | 0 <= i < 4 :: Envelope(id, kind, payload)[i].key == EnvelopeNames()[i]
  {
  }

  /** The four fields of an envelope, looked up. */
  ghost predicate EnvelopeHolds(e: seq<Entry>, id: u64, kind: Text, payload: Value) {
    && BV.Find(e, Ascii("protocolVersion")) == Some(BV.Integer(PROTOCOL_VERSION))
    && id < I64_LIMIT && BV.Find(e, Ascii("requestId")) == Some(BV.Integer(id))
    && BV.Find(e, Ascii("kind")) == Some(BV.String(kind))
    && BV.Find(e, Ascii("payload")) == Some(payload)
  }

  lemma ParseEnvelopeSteps(v: Value, id: u64, body: MessageBody)
    ensures ParseEnvelope(v) == Success((id, body)) <==>
            && ExactMap(v, EnvelopeNames()).Success? && 0 < id
            && (exists kind: Text, payload: Value ::
                  EnvelopeHolds(v.entries, id, kind, payload) && BodyFromValue(kind, payload) == Success(body))
  {
    hide BV.Find, Ascii, BodyFromValue, HasKey;
    if ParseEnvelope(v) == Success((id, body)) {
      var kind := FieldString(v.entries, Ascii("kind")).value;
      var payload := Field(v.entries, Ascii("payload")).value;
      assert EnvelopeHolds(v.entries, id, kind, payload);
    }
  }

  /** Holding the fields of an envelope is being a rearrangement of one. */
  lemma EnvelopeIsRearranged(e: seq<Entry>, id: u64, kind: Text, payload: seq<Entry>)
    requires id < I64_LIMIT
    ensures (&& |e| == 4 && (forall i | 0 <= i < 4 :: HasKey(e, EnvelopeNames()[i]))
             && EnvelopeHolds(e, id, kind, BV.Map(payload))) <==>
            multiset(e) == multiset(Envelope(id, kind, payload))
  {
    hide BV.Find, HasKey, Gather, Ascii;
    EnvelopeDistinct(id, kind, payload);
    var c, names := Envelope(id, kind, payload), EnvelopeNames();
    if multiset(e) == multiset(c) {
      RearrangementLength(e, c);
      GatherRearranged(e, c, names);
      GatherEquals(e, names, c);
      assert BV.Find(e, names[0]) == Some(c[0].value) && BV.Find(e, names[1]) == Some(c[1].value);
      assert BV.Find(e, names[2]) == Some(c[2].value) && BV.Find(e, names[3]) == Some(c[3].value);
    }
    if |e| == 4 && (forall i | 0 <= i < 4 :: HasKey(e, names[i])) && EnvelopeHolds(e, id, kind, BV.Map(payload)) {
      assert names[0] == c[0].key && names[1] == c[1].key && names[2] == c[2].key && names[3] == c[3].key;
      GatherEquals(e, names, c);
      Pigeonhole(e, names);
    }
  }

  lemma EnvelopeExact(v: Value, id: u64, body: MessageBody)
    ensures ParseEnvelope(v) == Success((id, body)) <==> Carries(v, id, body)
  {
    hide BV.Find, HasKey, Ascii, Validate, Fields, KindText, BodyFromValue, Envelope, EnvelopeHolds, EnvelopeNames;
    ParseEnvelopeSteps(v, id, body);
    EnvelopeNamesCount();
    if ParseEnvelope(v) == Success((id, body)) {
      var kind: Text, payload: Value :|
        EnvelopeHolds(v.entries, id, kind, payload) && BodyFromValue(kind, payload) == Success(body);
      PayloadExact(kind, payload, body);
      EnvelopeBounds(v.entries, id, kind, payload);
      EnvelopeIsRearranged(v.entries, id, kind, payload.entries);
    }
    if Carries(v, id, body) {
      var kind := KindText(KindOf(body));
      var payload: seq<Entry> :|
        multiset(payload) == multiset(Fields(body)) && multiset(v.entries) == multiset(Envelope(id, kind, payload));
      PayloadExact(kind, BV.Map(payload), body);
      EnvelopeIsRearranged(v.entries, id, kind, payload);
    }
  }

  lemma EnvelopeNamesCount()
    ensures |EnvelopeNames()| == 4
  {
  }

  lemma EnvelopeBounds(e: seq<Entry>, id: u64, kind: Text, payload: Value)
    requires EnvelopeHolds(e, id, kind, payload)
    ensures id < I64_LIMIT
  {
  }

  // ---------------------------------------------------------------- messages

  /** The accepted byte strings are exactly the encodings of envelopes with the entries of
      both maps in any order; nothing else in them is free. */
  lemma FromWireExact(input: seq<byte>, m: Message)
    ensures FromWire(input) == Success(m) <==>
            WellFormed(m) && exists v: Value :: BV.ToWire(v) == BV.Ok(input) && Carries(v, m.requestId, m.body)
  {
    hide D.FromWire, BV.ToWire, ParseEnvelope, Carries, NewMessage;
    forall v: Value ensures D.FromWire(input) == BV.Ok(v) <==> BV.ToWire(v) == BV.Ok(input) {
      CL.FromWireExact(input, v);
    }
    forall v: Value ensures ParseEnvelope(v) == Success((m.requestId, m.body)) <==> Carries(v, m.requestId, m.body) {
      EnvelopeExact(v, m.requestId, m.body);
    }
    if D.FromWire(input).Ok? {
      var v := D.FromWire(input).value;
      assert FromWire(input) == FromEnvelope(v);
      assert FromEnvelope(v) == Success(m) <==> ParseEnvelope(v) == Success((m.requestId, m.body)) && WellFormed(m);
    }
  }

  lemma CanonicalCarries(m: Message)
    requires WellFormed(m)
    ensures Carries(CanonicalValue(m), m.requestId, m.body)
  {
    hide Validate, Fields, KindText, Envelope;
    assert multiset(Fields(m.body)) == multiset(Fields(m.body));
  }

  /** Whatever is written is read back. */
  lemma EncodeThenDecode(m: Message)
    requires WellFormed(m) && ToWire(m).Success?
    ensures FromWire(ToWire(m).value) == Success(m)
  {
    hide CanonicalValue, Carries, BV.ToWire, FromWire, NewMessage;
    CanonicalCarries(m);
    FromWireExact(ToWire(m).value, m);
  }

  /** Everything the length and the limits of a map's encoding depend on. */
  predicate SameSize(a: Value, b: Value) {
    && |BV.Wire(a)| == |BV.Wire(b)| && BV.Nodes(a) == BV.Nodes(b)
    && BV.Content(a) == BV.Content(b) && BV.Height(a) == BV.Height(b)
  }

  lemma MapSize(e: seq<Entry>)
    ensures |BV.Wire(BV.Map(e))| == 7 + |BV.WireEntries(e)|
    ensures BV.Nodes(BV.Map(e)) == 1 + BV.EntriesNodes(e)
    ensures BV.Content(BV.Map(e)) == BV.EntriesContent(e)
    ensures BV.Height(BV.Map(e)) == 1 + BV.EntriesHeight(e)
  {
    hide BV.WireEntries, BV.EntriesNodes, BV.EntriesContent, BV.EntriesHeight, BigEndian;
  }

  lemma RearrangedSize(a: seq<Entry>, b: seq<Entry>)
    requires multiset(a) == multiset(b)
    ensures SameSize(BV.Map(a), BV.Map(b))
  {
    hide BV.Wire, BV.Nodes, BV.Content, BV.Height;
    RearrangementMeasures(a, b);
    MapSize(a);
    MapSize(b);
  }

  /** Exchanging a payload for one of the same size does not change the size of the envelope. */
  lemma EnvelopeSize(id: u64, kind: Text, a: seq<Entry>, b: seq<Entry>)
    requires id < I64_LIMIT && SameSize(BV.Map(a), BV.Map(b))
    ensures SameSize(BV.Map(Envelope(id, kind, a)), BV.Map(Envelope(id, kind, b)))
  {
    hide BV.WireEntries, BV.EntriesNodes, BV.EntriesContent, BV.EntriesHeight, BV.Wire, BV.Nodes, BV.Content,
         BV.Height, BigEndian, Ascii;
    var x, y := Envelope(id, kind, a), Envelope(id, kind, b);
    assert x[..3] == y[..3] && x[..4] == x && y[..4] == y;
    BV.EntriesStep(x, 3);
    BV.EntriesStep(y, 3);
    MapSize(x);
    MapSize(y);
  }

  /** Soundness survives rearranging into a list with distinct keys. */
  lemma RearrangedSound(a: seq<Entry>, b: seq<Entry>)
    requires multiset(a) == multiset(b) && BV.DistinctKeys(b)
    requires BV.Sound(BV.Map(a))
    ensures BV.Sound(BV.Map(b))
  {
    RearrangementLength(a, b);
    forall i | 0 <= i < |b| ensures |b[i].key| <= BV.MAX_STRING_BYTES && BV.Sound(b[i].value) {
      var j := InMultiset(b, a, i);
    }
  }

  lemma EnvelopeSound(id: u64, kind: Text, a: seq<Entry>, b: seq<Entry>)
    requires id < I64_LIMIT
    requires BV.Sound(BV.Map(Envelope(id, kind, a))) && BV.Sound(BV.Map(b))
    ensures BV.Sound(BV.Map(Envelope(id, kind, b)))
  {
    hide Ascii;
    EnvelopeDistinct(id, kind, b);
    var x, y := Envelope(id, kind, a), Envelope(id, kind, b);
    assert y[0] == x[0] && y[1] == x[1] && y[2] == x[2];
    assert y[3].key == x[3].key;
  }

  lemma PayloadSound(id: u64, kind: Text, a: seq<Entry>)
    requires id < I64_LIMIT && BV.Sound(BV.Map(Envelope(id, kind, a)))
    ensures BV.Sound(BV.Map(a))
  {
    hide Ascii;
    assert Envelope(id, kind, a)[3].value == BV.Map(a);
  }

  /** Whatever a value carries can be written again, in as many bytes. */
  lemma CanonicalFits(v: Value, m: Message)
    requires WellFormed(m) && Carries(v, m.requestId, m.body) && BV.Encodable(v)
    ensures BV.Encodable(CanonicalValue(m)) && SameSize(v, CanonicalValue(m))
  {
    hide Validate, Fields, KindText, Envelope, BV.Sound, BV.Wire, BV.Nodes, BV.Content, BV.Height;
    var id, kind, fields := m.requestId, KindText(KindOf(m.body)), Fields(m.body);
    var payload: seq<Entry> :|
      multiset(payload) == multiset(fields) && multiset(v.entries) == multiset(Envelope(id, kind, payload));
    RearrangedSize(payload, fields);
    RearrangedSize(v.entries, Envelope(id, kind, payload));
    EnvelopeSize(id, kind, payload, fields);
    EnvelopeDistinct(id, kind, payload);
    RearrangedSound(v.entries, Envelope(id, kind, payload));
    PayloadSound(id, kind, payload);
    FieldsDistinct(m.body);
    RearrangedSound(payload, fields);
    EnvelopeSound(id, kind, payload, fields);
  }

  /** Decoding and encoding again normalises: it succeeds, keeps the length, and the result
      decodes to the same message. */
  lemma DecodeThenEncode(input: seq<byte>)
    requires FromWire(input).Success?
    ensures ToWire(FromWire(input).value).Success?
    ensures |ToWire(FromWire(input).value).value| == |input|
    ensures FromWire(ToWire(FromWire(input).value).value) == FromWire(input)
  {
    hide NewMessage, FromWire, CanonicalValue, Carries, BV.Fits, BV.Wire, BV.Nodes, BV.Content, BV.Height;
    var m := FromWire(input).value;
    FromWireExact(input, m);
    var v: Value :| BV.ToWire(v) == BV.Ok(input) && Carries(v, m.requestId, m.body);
    CanonicalFits(v, m);
    EncodeThenDecode(m);
  }

  predicate KeysAre(entries: seq<Entry>, names: seq<Text>) {
    |entries| == |names| && forall i | 0 <= i < |names| :: entries[i].key == names[i]
  }

  /** The keys of envelope and payload stand in the order in which they are written. */
  predicate InWritingOrder(v: Value, kind: Kind) {
    && v.Map? && KeysAre(v.entries, EnvelopeNames())
    && v.entries[3].value.Map? && KeysAre(v.entries[3].value.entries, Names(kind))
  }

  /** A rearrangement that keeps the order of distinct keys is none. */
  lemma SameOrder(a: seq<Entry>, b: seq<Entry>)
    requires multiset(a) == multiset(b) && BV.DistinctKeys(b)
    requires |a| == |b| && forall i | 0 <= i < |a| :: a[i].key == b[i].key
    ensures a == b
  {
    forall i | 0 <= i < |a| ensures a[i] == b[i] {
      var j := InMultiset(a, b, i);
      assert j == i;
    }
  }

  lemma CanonicalInOrder(m: Message)
    requires WellFormed(m)
    ensures InWritingOrder(CanonicalValue(m), KindOf(m.body))
  {
    hide Validate, Fields, Ascii;
    FieldNames(m.body);
    EnvelopeDistinct(m.requestId, KindText(KindOf(m.body)), Fields(m.body));
  }

  lemma OrderedIsCanonical(v: Value, m: Message)
    requires WellFormed(m) && Carries(v, m.requestId, m.body) && InWritingOrder(v, KindOf(m.body))
    ensures v == CanonicalValue(m)
  {
    hide Validate, Fields, Names, KindText, Ascii;
    var kind := KindText(KindOf(m.body));
    var payload: seq<Entry> :|
      && multiset(payload) == multiset(Fields(m.body))
      && multiset(v.entries) == multiset(Envelope(m.requestId, kind, payload));
    EnvelopeDistinct(m.requestId, kind, payload);
    SameOrder(v.entries, Envelope(m.requestId, kind, payload));
    FieldNames(m.body);
    FieldsDistinct(m.body);
    SameOrder(payload, Fields(m.body));
  }

  /** Exactly when decoding and encoding again gives back the same bytes: when both maps came in the
      order in which they are written. */
  lemma ReencodingIsIdentity(input: seq<byte>)
    requires FromWire(input).Success?
    ensures var m := FromWire(input).value;
            && D.FromWire(input).Ok?
            && (ToWire(m) == Success(input) <==> InWritingOrder(D.FromWire(input).value, KindOf(m.body)))
  {
    hide NewMessage, FromWire, CanonicalValue, Carries, D.FromWire, InWritingOrder, BV.ToWire;
    var m := FromWire(input).value;
    FromWireExact(input, m);
    var v: Value :| BV.ToWire(v) == BV.Ok(input) && Carries(v, m.requestId, m.body);
    CL.FromWireExact(input, v);
    CL.FromWireExact(input, CanonicalValue(m));
    CanonicalInOrder(m);
    if InWritingOrder(v, KindOf(m.body)) {
      OrderedIsCanonical(v, m);
    }
  }

  /** That normalisation is not the identity: every message that can be written also has an
      encoding that is never written, with the first two entries exchanged. */
  lemma AnotherEncoding(m: Message) returns (other: seq<byte>)
    requires WellFormed(m) && ToWire(m).Success?
    ensures other != ToWire(m).value && FromWire(other) == Success(m)
  {
    hide FromWire, Validate, Fields, KindText, BV.Sound, BV.Wire, BV.Nodes, BV.Content, BV.Height, Ascii;
    var e := Envelope(m.requestId, KindText(KindOf(m.body)), Fields(m.body));
    var swapped := [e[1], e[0], e[2], e[3]];
    EnvelopeDistinct(m.requestId, KindText(KindOf(m.body)), Fields(m.body));
    SwapRearranges(e, swapped);
    RearrangedSize(e, swapped);
    RearrangedSound(e, swapped);
    other := BV.Wire(BV.Map(swapped));
    assert BV.ToWire(BV.Map(swapped)) == BV.Ok(other);
    CL.EncodeThenDecode(BV.Map(swapped));
    CL.EncodeThenDecode(BV.Map(e));
    assert swapped[0] != e[0];
    assert multiset(Fields(m.body)) == multiset(Fields(m.body));
    assert Carries(BV.Map(swapped), m.requestId, m.body);
    FromWireExact(other, m);
  }

  lemma SwapRearranges(e: seq<Entry>, swapped: seq<Entry>)
    requires |e| == 4 && swapped == [e[1], e[0], e[2], e[3]] && BV.DistinctKeys(e)
    ensures multiset(swapped) == multiset(e) && BV.DistinctKeys(swapped)
  {
    SwapMultiset(e[0], e[1], e[2..]);
    assert e == [e[0], e[1]] + e[2..] && swapped == [e[1], e[0]] + e[2..];
  }

  lemma SwapMultiset(a: Entry, b: Entry, rest: seq<Entry>)
    ensures multiset([a, b] + rest) == multiset([b, a] + rest)
  {
    assert multiset([a, b]) == multiset([b, a]);
  }

  // ---------------------------------------------------------------- exact lengths

  function PayloadLength(body: MessageBody): nat {
    match body
    case Load(packageRoot, entrypoint, _, _) => 103 + |packageRoot| + |entrypoint|
    case Invoke(operation, input, _) => 74 + |operation| + |input|
    case ResultReply(output) => 26 + |output|
    case ErrorReply(code, message) => 44 + |code| + |message|
    case BridgeInvoke(operation, input) => 47 + |operation| + |input|
    case RetainHandle(_, _) => 59
    case ReleaseHandle(_, _) => 59
    case CallbackResult(output) => 26 + |output|
    case CallbackError(code) => 24 + |code|
    case _ => 7
  }

  /** The length of an encoded message, in closed form. */
  function EncodedLength(body: MessageBody): nat {
    95 + KindShape(KindOf(body)).0 + PayloadLength(body)
  }

  lemma EntryLength(e: Entry)
    ensures |BV.WireEntry(e)| == 6 + |e.key| + |BV.Wire(e.value)|
    ensures e.value.String? ==> |BV.Wire(e.value)| == 7 + |e.value.text|
    ensures e.value.Bytes? ==> |BV.Wire(e.value)| == 7 + |e.value.bytes|
    ensures e.value.Integer? ==> |BV.Wire(e.value)| == 11
  {
    hide BigEndian, BV.WireItems, BV.WireEntries;
  }

  lemma NoEntriesLength()
    ensures BV.WireEntries([]) == []
  {
  }

  lemma EntriesLength(e: seq<Entry>)
    requires |e| <= 4
    ensures |BV.WireEntries(e)| ==
            (if |e| > 0 then |BV.WireEntry(e[0])| else 0) + (if |e| > 1 then |BV.WireEntry(e[1])| else 0)
            + (if |e| > 2 then |BV.WireEntry(e[2])| else 0) + (if |e| > 3 then |BV.WireEntry(e[3])| else 0)
  {
    hide BV.WireEntry, BV.WireEntries, BV.EntriesNodes, BV.EntriesContent, BV.EntriesHeight;
    NoEntriesLength();
    assert e[..0] == [] && e[..|e|] == e;
    if |e| > 0 { BV.EntriesStep(e, 0); }
    if |e| > 1 { BV.EntriesStep(e, 1); }
    if |e| > 2 { BV.EntriesStep(e, 2); }
    if |e| > 3 { BV.EntriesStep(e, 3); }
  }

  lemma FieldsLength(body: MessageBody)
    requires Validate(body).Success?
    ensures 7 + |BV.WireEntries(Fields(body))| == PayloadLength(body)
  {
    hide Validate, BV.WireEntries, BV.WireEntry, BV.Wire;
    ValidIds(body);
    var f := Fields(body);
    EntriesLength(f);
    forall i | 0 <= i < |f| ensures |BV.WireEntry(f[i])| == 6 + |f[i].key| + |BV.Wire(f[i].value)| {
      EntryLength(f[i]);
    }
    if |f| > 0 { EntryLength(f[0]); }
    if |f| > 1 { EntryLength(f[1]); }
    if |f| > 2 { EntryLength(f[2]); }
    if |f| > 3 { EntryLength(f[3]); }
  }

  lemma EncodedLengthExact(m: Message)
    requires WellFormed(m)
    ensures |BV.Wire(CanonicalValue(m))| == EncodedLength(m.body)
  {
    hide Validate, BV.WireEntries, BV.WireEntry, BV.Wire, Fields, KindText, PayloadLength, KindShape;
    var e := Envelope(m.requestId, KindText(KindOf(m.body)), Fields(m.body));
    MapSize(e);
    EntriesLength(e);
    EntryLength(e[0]);
    EntryLength(e[1]);
    EntryLength(e[2]);
    EntryLength(e[3]);
    KindTextShape(KindOf(m.body));
    MapSize(Fields(m.body));
    FieldsLength(m.body);
  }
}
