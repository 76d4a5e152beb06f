/**
 The line-protocol record builder and the record composer.

 The builder writes into a fixed-capacity character buffer with `snprintf`
 semantics: each call appends as much of its text as fits before the
 terminating NUL and returns the length of the whole text, so an overlong
 record is truncated, not rejected.

 The composer builds one record from the active channels and the available
 GPS fields, hands it to the transport, and appends it to the offline queue
 when the transport reports failure. Numeric rendering (`%.6f`) is a
 parameter; the transport outcome is an input.
 */
module LineProtocol {
  import opened Text
  import M = Measurement
  import Q = OfflineQueue

  // ---------------------------------------------------------------------
  // The bounded buffer and snprintf
  // ---------------------------------------------------------------------

  /** A character buffer of `size` bytes holding the NUL-terminated string `text`. */
  datatype LineBuffer = LineBuffer(text: string, size: nat) {
    predicate Valid() {
      |text| < size
    }
  }

  /** The longest prefix of `s` that fits, with its NUL, in `size` bytes (for `size > 0`). */
  function Cap(s: string, size: nat): (w: string)
    requires size > 0
    ensures w <= s && |w| < size
    ensures |w| == |s| || |w| == size - 1
  {
    if |s| < size then s else s[..size - 1]
  }

  /** `snprintf(buffer + strlen(buffer), size - strlen(buffer), "%s", s)`. */
  function Append(b: LineBuffer, s: string): (r: (int, LineBuffer))
    requires b.Valid()
    ensures r.1.Valid() && r.1.size == b.size
    ensures r.0 == |s|
    ensures b.text <= r.1.text && r.1.text[|b.text|..] <= s
    ensures r.1.text == b.text + s <==> r.0 < b.size - |b.text|
    ensures r.0 >= b.size - |b.text| ==> |r.1.text| == b.size - 1
  {
    (|s|, b.(text := Cap(b.text + s, b.size)))
  }

  /** Appending to a buffer that holds a capped text gives the cap of the extended text. */
  lemma AppendCap(x: string, size: nat, s: string)
    requires size > 0
    ensures Append(LineBuffer(Cap(x, size), size), s).1.text == Cap(x + s, size)
  {
    if |x| >= size {
      assert (x + s)[..size - 1] == x[..size - 1];
    }
  }

  // ---------------------------------------------------------------------
  // setMeasurement, addTag, addField, addTimestamp
  // ---------------------------------------------------------------------

  /** Overwrites the buffer with the measurement name, truncated to `size - 1` characters. */
  function SetMeasurement(b: LineBuffer, name: string): (r: (int, LineBuffer))
    ensures r.0 == |name| && r.1.size == b.size
    ensures b.size == 0 ==> r.1 == b
    ensures b.size > 0 ==> r.1.Valid() && r.1.text <= name
    ensures b.size > 0 ==> (r.1.text == name <==> |name| < b.size)
    ensures |name| >= b.size > 0 ==> |r.1.text| == b.size - 1
  {
    (|name|, if b.size == 0 then b else b.(text := Cap(name, b.size)))
  }

  function TagText(key: string, value: string): string {
    "," + key + "=" + value
  }

  /** Appends `,key=value` (truncated if need be); the existing text is kept as a prefix. */
  function AddTag(b: LineBuffer, key: string, value: string): (r: (int, LineBuffer))
    requires b.Valid()
    ensures r.1.Valid() && r.1.size == b.size
    ensures r.0 == |key| + |value| + 2
    ensures b.text <= r.1.text && r.1.text[|b.text|..] <= TagText(key, value)
    ensures r.1.text == b.text + TagText(key, value) <==> r.0 < b.size - |b.text|
  {
    Append(b, TagText(key, value))
  }

  /** The separator before a field: a space when the record has no space yet (first field), a comma otherwise. */
  function FieldSeparator(text: string): char {
    if ' ' in text then ',' else ' '
  }

  function FieldText(text: string, key: string, rendered: string): string {
    [FieldSeparator(text)] + key + "=" + rendered
  }

  /** Appends the separator and `key=value`, where `rendered` is the `%.6f` text of the value. */
  function AddField(b: LineBuffer, key: string, rendered: string): (r: (int, LineBuffer))
    requires b.Valid()
    ensures r.1.Valid() && r.1.size == b.size
    ensures r.0 == |key| + |rendered| + 2
    ensures b.text <= r.1.text
    ensures r.1.text[|b.text|..] <= FieldText(b.text, key, rendered)
    ensures |r.1.text| > |b.text| ==> r.1.text[|b.text|] == (if ' ' in b.text then ',' else ' ')
    ensures r.1.text == b.text + FieldText(b.text, key, rendered) <==> r.0 < b.size - |b.text|
  {
    if IndexOf(b.text, ' ').None? then
      Append(b, " " + key + "=" + rendered)
    else
      Append(b, "," + key + "=" + rendered)
  }

  function TimestampText(timestamp: int): string {
    " " + IntToDecimal(timestamp)
  }

  /** Appends a space and the decimal rendering of the timestamp. */
  function AddTimestamp(b: LineBuffer, timestamp: int): (r: (int, LineBuffer))
    requires b.Valid()
    ensures r.1.Valid() && r.1.size == b.size
    ensures r.0 == 1 + |IntToDecimal(timestamp)|
    ensures b.text <= r.1.text && r.1.text[|b.text|..] <= TimestampText(timestamp)
    ensures r.1.text == b.text + TimestampText(timestamp) <==> r.0 < b.size - |b.text|
  {
    Append(b, TimestampText(timestamp))
  }

  // ---------------------------------------------------------------------
  // Composing a record
  // ---------------------------------------------------------------------

  const RecordBufferSize := 1024
  const ChannelCount := 4
  const MeasurementName := "measurements"
  const SourceTagKey := "source"
  const SourceTagValue := "instrumentacao"
  const InactiveId := "NC"

  /** GPS fields as read; `None` is the NaN that marks a field without a fix. */
  datatype GpsData = GpsData(latitude: Option<real>, longitude: Option<real>, altitude: Option<real>, speed: Option<real>)

  /** `%.6f` rendering of a double. */
  type Render = real -> string

  type Field = (string, string)

  /** The channel fields of channels `i..3`, in channel order; inactive channels add none. */
  function ChannelFields(settings: seq<M.MeasurementSetting>, ms: seq<M.Measurement>, render: Render, i: nat): seq<Field>
    requires |settings| >= ChannelCount && |ms| >= ChannelCount && i <= ChannelCount
    decreases ChannelCount - i
  {
    if i == ChannelCount then []
    else if settings[i].id != InactiveId then
      [(settings[i].id, render(M.GetMeasurementValue(ms[i]).0))] + ChannelFields(settings, ms, render, i + 1)
    else ChannelFields(settings, ms, render, i + 1)
  }

  function OptField(key: string, v: Option<real>, render: Render): seq<Field> {
    if v.Some? then [(key, render(v.value))] else []
  }

  /** GPS fields in the order latitude, longitude, altitude, speed, each only when present. */
  function GpsFields(gps: Option<GpsData>, render: Render): seq<Field> {
    match gps
    case None => []
    case Some(g) =>
      OptField("latitude", g.latitude, render) + OptField("longitude", g.longitude, render)
      + OptField("altitude", g.altitude, render) + OptField("speed", g.speed, render)
  }

  function RecordFields(settings: seq<M.MeasurementSetting>, ms: seq<M.Measurement>, gps: Option<GpsData>, render: Render): seq<Field>
    requires |settings| >= ChannelCount && |ms| >= ChannelCount
  {
    ChannelFields(settings, ms, render, 0) + GpsFields(gps, render)
  }

  /** `addField` applied to each field in turn. */
  function AddFields(b: LineBuffer, fields: seq<Field>): (r: LineBuffer)
    requires b.Valid()
    ensures r.Valid() && r.size == b.size && b.text <= r.text
    decreases |fields|
  {
    if |fields| == 0 then b else AddFields(AddField(b, fields[0].0, fields[0].1).1, fields[1..])
  }

  /** The measurement array after the composer read it: each active channel's cached value is refreshed. */
  function RefreshActive(settings: seq<M.MeasurementSetting>, ms: seq<M.Measurement>): (r: seq<M.Measurement>)
    requires |settings| >= ChannelCount && |ms| >= ChannelCount
    ensures |r| == |ms|
    ensures forall i :: 0 <= i < |ms| && (i >= ChannelCount || settings[i].id == InactiveId) ==> r[i] == ms[i]
    ensures forall i :: 0 <= i < ChannelCount && settings[i].id != InactiveId ==> r[i] == M.ConvertMeasurement(ms[i])
  {
    seq(|ms|, i requires 0 <= i < |ms| =>
      if i < ChannelCount && settings[i].id != InactiveId then M.GetMeasurementValue(ms[i]).1 else ms[i])
  }

  /** The record text the composer leaves in its 1024-byte buffer, and the refreshed measurements. */
  function ComposeRecord(settings: seq<M.MeasurementSetting>, ms: seq<M.Measurement>, gps: Option<GpsData>,
                         timestamp: int, render: Render): (r: (string, seq<M.Measurement>))
    requires |settings| >= ChannelCount && |ms| >= ChannelCount
    ensures |r.0| < RecordBufferSize
  {
    var b0 := SetMeasurement(LineBuffer("", RecordBufferSize), MeasurementName).1;
    var b1 := AddTag(b0, SourceTagKey, SourceTagValue).1;
    var b2 := AddFields(b1, RecordFields(settings, ms, gps, render));
    var b3 := AddTimestamp(b2, timestamp).1;
    (b3.text, RefreshActive(settings, ms))
  }

  // ---------------------------------------------------------------------
  // Reference definition: the record without a capacity bound
  // ---------------------------------------------------------------------

  const Header := MeasurementName + TagText(SourceTagKey, SourceTagValue)

  /** The fields appended one by one to `text` without any bound, with the same separator rule. */
  function UnboundedFields(text: string, fields: seq<Field>): string
    decreases |fields|
  {
    if |fields| == 0 then text
    else UnboundedFields(text + FieldText(text, fields[0].0, fields[0].1), fields[1..])
  }

  /** A record with the given header, without a capacity bound. */
  function RecordText(header: string, fields: seq<Field>, timestamp: int): string {
    UnboundedFields(header, fields) + TimestampText(timestamp)
  }

  function UnboundedRecord(fields: seq<Field>, timestamp: int): string {
    RecordText(Header, fields, timestamp)
  }

  /** Adding a field to a buffer holding a capped text gives the cap of the unbounded text. */
  lemma AddFieldCap(x: string, size: nat, f: Field)
    requires size > 0
    ensures AddField(LineBuffer(Cap(x, size), size), f.0, f.1).1.text == Cap(x + FieldText(x, f.0, f.1), size)
  {
    var c := Cap(x, size);
    AppendCap(x, size, FieldText(x, f.0, f.1));
    if |x| < size {
      assert c == x;
    } else {
      // the buffer is full, so whichever separator is chosen nothing more is written
      assert |c| == size - 1;
      AppendCap(x, size, FieldText(c, f.0, f.1));
      assert (x + FieldText(c, f.0, f.1))[..size - 1] == x[..size - 1] == (x + FieldText(x, f.0, f.1))[..size - 1];
    }
  }

  lemma {:induction false} AddFieldsCap(x: string, size: nat, fields: seq<Field>)
    requires size > 0
    ensures AddFields(LineBuffer(Cap(x, size), size), fields).text == Cap(UnboundedFields(x, fields), size)
    decreases |fields|
  {
    if |fields| > 0 {
      var f := fields[0];
      AddFieldCap(x, size, f);
      var x' := x + FieldText(x, f.0, f.1);
      assert AddField(LineBuffer(Cap(x, size), size), f.0, f.1).1 == LineBuffer(Cap(x', size), size);
      AddFieldsCap(x', size, fields[1..]);
    }
  }

  /**
   Truncation only ever cuts the tail: the composed record is the unbounded
   record cut to the 1023 characters the buffer can hold.
   */
  lemma ComposeIsCappedRecord(settings: seq<M.MeasurementSetting>, ms: seq<M.Measurement>, gps: Option<GpsData>,
                              timestamp: int, render: Render)
    requires |settings| >= ChannelCount && |ms| >= ChannelCount
    ensures ComposeRecord(settings, ms, gps, timestamp, render).0
         == Cap(UnboundedRecord(RecordFields(settings, ms, gps, render), timestamp), RecordBufferSize)
  {
    var fields := RecordFields(settings, ms, gps, render);
    var b0 := SetMeasurement(LineBuffer("", RecordBufferSize), MeasurementName).1;
    assert b0.text == MeasurementName;
    var b1 := AddTag(b0, SourceTagKey, SourceTagValue).1;
    assert b1.text == Header == Cap(Header, RecordBufferSize);
    AddFieldsCap(Header, RecordBufferSize, fields);
    var b2 := AddFields(b1, fields);
    AppendCap(UnboundedFields(Header, fields), RecordBufferSize, TimestampText(timestamp));
  }

  // ---------------------------------------------------------------------
  // Separator law and decoding
  // ---------------------------------------------------------------------

  function PairText(f: Field): string {
    f.0 + "=" + f.1
  }

  /** `,k1=v1,k2=v2...`: the fields after the first. */
  function CommaFields(fields: seq<Field>): string {
    if |fields| == 0 then "" else "," + PairText(fields[0]) + CommaFields(fields[1..])
  }

  lemma {:induction false} UnboundedAfterSpace(text: string, fields: seq<Field>)
    requires ' ' in text
    ensures UnboundedFields(text, fields) == text + CommaFields(fields)
    decreases |fields|
  {
    if |fields| > 0 {
      var t' := text + FieldText(text, fields[0].0, fields[0].1);
      assert ' ' in t' by {
        var j :| 0 <= j < |text| && text[j] == ' ';
        assert t'[j] == ' ';
      }
      UnboundedAfterSpace(t', fields[1..]);
    }
  }

  /**
   Separator law: the first field follows the header after exactly one space,
   every later field follows a comma, and the timestamp follows a space.
   */
  lemma SeparatorLaw(header: string, fields: seq<Field>, timestamp: int)
    requires |fields| > 0 && ' ' !in header
    ensures RecordText(header, fields, timestamp)
         == header + " " + PairText(fields[0]) + CommaFields(fields[1..]) + " " + IntToDecimal(timestamp)
  {
    var t' := header + FieldText(header, fields[0].0, fields[0].1);
    assert t' == header + " " + PairText(fields[0]);
    assert t'[|header|] == ' ';
    UnboundedAfterSpace(t', fields[1..]);
  }

  /** A record read back: name, tags, fields and timestamp. */
  datatype Record = Record(name: string, tags: seq<Field>, fields: seq<Field>, timestamp: int)

  /** `key=value` split at the first `=`. */
  function ParsePair(s: string): Option<Field> {
    match IndexOf(s, '=')
    case None => None
    case Some(j) => Some((s[..j], s[j + 1..]))
  }

  function ParsePairs(ps: seq<string>): Option<seq<Field>> {
    if |ps| == 0 then Some([])
    else match (ParsePair(ps[0]), ParsePairs(ps[1..]))
      case (Some(f), Some(rest)) => Some([f] + rest)
      case _ => None
  }

  /** Splits a record on its separators: spaces between sections, commas between tags and fields, `=` inside pairs. */
  function ParseRecord(line: string): Option<Record> {
    var sections := SplitOn(line, ' ');
    if |sections| != 3 then None
    else
      var head := SplitOn(sections[0], ',');
      match (ParsePairs(head[1..]), ParsePairs(SplitOn(sections[1], ',')), ScanInt(sections[2]))
      case (Some(tags), Some(fields), Some(ts)) => Some(Record(head[0], tags, fields, ts))
      case _ => None
  }

  /** A key or value that cannot be confused with a separator. */
  predicate Clean(s: string) {
    ' ' !in s && ',' !in s
  }

  predicate CleanField(f: Field) {
    Clean(f.0) && Clean(f.1) && '=' !in f.0
  }

  function Pairs(fields: seq<Field>): (ps: seq<string>)
    ensures |ps| == |fields|
    ensures forall i :: 0 <= i < |ps| ==> ps[i] == PairText(fields[i])
  {
    if |fields| == 0 then [] else [PairText(fields[0])] + Pairs(fields[1..])
  }

  lemma {:induction false} ParsePairsOfPairs(fields: seq<Field>)
    requires forall i :: 0 <= i < |fields| ==> CleanField(fields[i])
    ensures ParsePairs(Pairs(fields)) == Some(fields)
  {
    if |fields| > 0 {
      var f := fields[0];
      ParsePairText(f);
      ParsePairsOfPairs(fields[1..]);
      assert Pairs(fields)[1..] == Pairs(fields[1..]);
      assert fields == [f] + fields[1..];
    }
  }

  lemma ParsePairText(f: Field)
    requires '=' !in f.0
    ensures ParsePair(PairText(f)) == Some(f)
  {
    var t := PairText(f);
    assert t == f.0 + ['='] + f.1;
    IndexOfAfter(f.0, '=', f.1);
    assert t[..|f.0|] == f.0;
    assert t[|f.0| + 1..] == f.1;
  }

  lemma {:induction false} CommaFieldsIsJoin(fields: seq<Field>)
    requires |fields| > 0
    ensures PairText(fields[0]) + CommaFields(fields[1..]) == JoinWith(Pairs(fields), ',')
  {
    if |fields| > 1 {
      CommaFieldsIsJoin(fields[1..]);
      assert Pairs(fields)[1..] == Pairs(fields[1..]);
    }
  }

  lemma {:induction false} PairsClean(fields: seq<Field>, c: char)
    requires c == ' ' || c == ','
    requires forall i :: 0 <= i < |fields| ==> CleanField(fields[i])
    ensures forall i :: 0 <= i < |Pairs(fields)| ==> c !in Pairs(fields)[i]
  {
  }

  lemma JoinWithClean(parts: seq<string>, c: char, d: char)
    requires |parts| > 0 && c != d
    requires forall i :: 0 <= i < |parts| ==> c !in parts[i]
    ensures c !in JoinWith(parts, d)
  {
  }

  /**
   Round trip: when no name, key or value contains a separator, splitting a
   record on its separators gives back the name, the tag, the fields in order
   and the timestamp.
   */
  lemma ParseRecordText(name: string, key: string, value: string, fields: seq<Field>, timestamp: int)
    requires |fields| > 0
    requires forall i :: 0 <= i < |fields| ==> CleanField(fields[i])
    requires Clean(name) && CleanField((key, value))
    ensures ParseRecord(RecordText(name + TagText(key, value), fields, timestamp))
         == Some(Record(name, [(key, value)], fields, timestamp))
  {
    var header := name + TagText(key, value);
    var ts := IntToDecimal(timestamp);
    RecordSections(header, fields, timestamp);
    HeaderParts(name, key, value);
    SplitJoin(Pairs(fields), ',');
    ParsePairsOfPairs(fields);
    ParsePairsOfPairs([(key, value)]);
    assert Pairs([(key, value)]) == [PairText((key, value))];
    ScanIntRoundTrip(timestamp, "");
    assert ts + "" == ts;
  }

  /** A record splits on spaces into header, field list and timestamp. */
  lemma RecordSections(header: string, fields: seq<Field>, timestamp: int)
    requires |fields| > 0 && ' ' !in header
    requires forall i :: 0 <= i < |fields| ==> CleanField(fields[i])
    ensures SplitOn(RecordText(header, fields, timestamp), ' ')
         == [header, JoinWith(Pairs(fields), ','), IntToDecimal(timestamp)]
  {
    var body := JoinWith(Pairs(fields), ',');
    var ts := IntToDecimal(timestamp);
    RecordTextJoined(header, fields, timestamp);
    BodyHasNoSpace(fields);
    SectionsSplit(header, body, ts);
  }

  lemma RecordTextJoined(header: string, fields: seq<Field>, timestamp: int)
    requires |fields| > 0 && ' ' !in header
    ensures RecordText(header, fields, timestamp)
         == header + " " + JoinWith(Pairs(fields), ',') + " " + IntToDecimal(timestamp)
  {
    SeparatorLaw(header, fields, timestamp);
    var p, c := PairText(fields[0]), CommaFields(fields[1..]);
    var ts := IntToDecimal(timestamp);
    CommaFieldsIsJoin(fields);
    Regroup(header + " ", p, c, " ", ts);
  }

  lemma Regroup(a: string, b: string, c: string, d: string, e: string)
    ensures a + b + c + d + e == a + (b + c) + d + e
  {
  }

  lemma BodyHasNoSpace(fields: seq<Field>)
    requires |fields| > 0
    requires forall i :: 0 <= i < |fields| ==> CleanField(fields[i])
    ensures ' ' !in JoinWith(Pairs(fields), ',')
  {
    PairsClean(fields, ' ');
    JoinWithClean(Pairs(fields), ' ', ',');
  }

  lemma SectionsSplit(header: string, body: string, ts: string)
    requires ' ' !in header && ' ' !in body
    requires forall i :: 0 <= i < |ts| ==> IsDigit(ts[i]) || (i == 0 && ts[i] == '-')
    ensures SplitOn(header + " " + body + " " + ts, ' ') == [header, body, ts]
  {
    assert ' ' !in ts;
    SplitThree(header, body, ts, ' ');
  }

  lemma HeaderParts(name: string, key: string, value: string)
    requires Clean(name) && CleanField((key, value))
    ensures SplitOn(name + TagText(key, value), ',') == [name, PairText((key, value))]
  {
    var parts := [name, PairText((key, value))];
    assert parts[1..] == [PairText((key, value))];
    assert JoinWith(parts, ',') == name + [','] + PairText((key, value));
    assert name + TagText(key, value) == name + [','] + PairText((key, value));
    assert ',' !in PairText((key, value)) by {
      assert PairText((key, value)) == key + ['='] + value;
    }
    SplitJoin(parts, ',');
  }

  /** The composer's own header: `measurements,source=instrumentacao`. */
  lemma ParseUnboundedRecord(fields: seq<Field>, timestamp: int)
    requires |fields| > 0
    requires forall i :: 0 <= i < |fields| ==> CleanField(fields[i])
    ensures ParseRecord(UnboundedRecord(fields, timestamp))
         == Some(Record(MeasurementName, [(SourceTagKey, SourceTagValue)], fields, timestamp))
  {
    assert Clean(MeasurementName) && CleanField((SourceTagKey, SourceTagValue));
    ParseRecordText(MeasurementName, SourceTagKey, SourceTagValue, fields, timestamp);
  }

  /** When the unbounded record fits, the composed record is it, and it decodes to its fields. */
  lemma ComposedRecordDecodes(settings: seq<M.MeasurementSetting>, ms: seq<M.Measurement>, gps: Option<GpsData>,
                              timestamp: int, render: Render)
    requires |settings| >= ChannelCount && |ms| >= ChannelCount
    requires var fields := RecordFields(settings, ms, gps, render);
             && |fields| > 0
             && (forall i :: 0 <= i < |fields| ==> CleanField(fields[i]))
             && |UnboundedRecord(fields, timestamp)| < RecordBufferSize
    ensures ParseRecord(ComposeRecord(settings, ms, gps, timestamp, render).0)
         == Some(Record(MeasurementName, [(SourceTagKey, SourceTagValue)], RecordFields(settings, ms, gps, render), timestamp))
  {
    ComposeIsCappedRecord(settings, ms, gps, timestamp, render);
    ParseUnboundedRecord(RecordFields(settings, ms, gps, render), timestamp);
  }

  // ---------------------------------------------------------------------
  // Which fields a record carries
  // ---------------------------------------------------------------------

  /** Only the first four settings and measurements are read. */
  lemma {:induction false} ChannelFieldsFirstFour(settings: seq<M.MeasurementSetting>, ms: seq<M.Measurement>, render: Render, i: nat)
    requires |settings| >= ChannelCount && |ms| >= ChannelCount && i <= ChannelCount
    ensures ChannelFields(settings, ms, render, i) == ChannelFields(settings[..ChannelCount], ms[..ChannelCount], render, i)
    decreases ChannelCount - i
  {
    if i < ChannelCount {
      ChannelFieldsFirstFour(settings, ms, render, i + 1);
    }
  }

  lemma OnlyFirstFourChannels(settings: seq<M.MeasurementSetting>, ms: seq<M.Measurement>, gps: Option<GpsData>,
                              timestamp: int, render: Render)
    requires |settings| >= ChannelCount && |ms| >= ChannelCount
    ensures ComposeRecord(settings, ms, gps, timestamp, render).0
         == ComposeRecord(settings[..ChannelCount], ms[..ChannelCount], gps, timestamp, render).0
  {
    ChannelFieldsFirstFour(settings, ms, render, 0);
  }

  /** The key sequence of a list of fields. */
  function Keys(fields: seq<Field>): seq<string> {
    seq(|fields|, i requires 0 <= i < |fields| => fields[i].0)
  }

  /** The ids of the active channels among `i..3`, in channel order. */
  function ActiveIds(settings: seq<M.MeasurementSetting>, i: nat): seq<string>
    requires |settings| >= ChannelCount && i <= ChannelCount
    decreases ChannelCount - i
  {
    if i == ChannelCount then []
    else (if settings[i].id != InactiveId then [settings[i].id] else []) + ActiveIds(settings, i + 1)
  }

  /** A channel contributes a field iff its id is not "NC"; the field is named by the id. */
  lemma {:induction false} ChannelFieldKeys(settings: seq<M.MeasurementSetting>, ms: seq<M.Measurement>, render: Render, i: nat)
    requires |settings| >= ChannelCount && |ms| >= ChannelCount && i <= ChannelCount
    ensures Keys(ChannelFields(settings, ms, render, i)) == ActiveIds(settings, i)
    ensures InactiveId !in Keys(ChannelFields(settings, ms, render, i))
    decreases ChannelCount - i
  {
    if i < ChannelCount {
      ChannelFieldKeys(settings, ms, render, i + 1);
      var rest := ChannelFields(settings, ms, render, i + 1);
      if settings[i].id != InactiveId {
        var f := (settings[i].id, render(M.GetMeasurementValue(ms[i]).0));
        KeysAppend([f], rest);
        assert Keys([f]) == [settings[i].id];
      }
    }
  }

  /** The measurement of an inactive channel has no influence on the record. */
  lemma {:induction false} InactiveChannelIgnored(settings: seq<M.MeasurementSetting>, ms: seq<M.Measurement>,
                                                  j: nat, m: M.Measurement, render: Render, i: nat)
    requires |settings| >= ChannelCount && |ms| >= ChannelCount && i <= ChannelCount
    requires j < ChannelCount && settings[j].id == InactiveId
    ensures ChannelFields(settings, ms[j := m], render, i) == ChannelFields(settings, ms, render, i)
    decreases ChannelCount - i
  {
    if i < ChannelCount {
      InactiveChannelIgnored(settings, ms, j, m, render, i + 1);
    }
  }

  function GpsKeysPresent(g: GpsData): seq<string> {
    (if g.latitude.Some? then ["latitude"] else []) + (if g.longitude.Some? then ["longitude"] else [])
    + (if g.altitude.Some? then ["altitude"] else []) + (if g.speed.Some? then ["speed"] else [])
  }

  /**
   The record's fields are the active channels in channel order, then the GPS
   fields that are present in the order latitude, longitude, altitude, speed.
   */
  lemma RecordFieldKeys(settings: seq<M.MeasurementSetting>, ms: seq<M.Measurement>, gps: Option<GpsData>, render: Render)
    requires |settings| >= ChannelCount && |ms| >= ChannelCount
    ensures Keys(RecordFields(settings, ms, gps, render))
         == ActiveIds(settings, 0) + (if gps.Some? then GpsKeysPresent(gps.value) else [])
  {
    ChannelFieldKeys(settings, ms, render, 0);
    KeysAppend(ChannelFields(settings, ms, render, 0), GpsFields(gps, render));
    if gps.Some? {
      GpsFieldKeys(gps.value, render);
    }
  }

  lemma GpsFieldKeys(g: GpsData, render: Render)
    ensures Keys(GpsFields(Some(g), render)) == GpsKeysPresent(g)
  {
    var a := OptField("latitude", g.latitude, render);
    var b := OptField("longitude", g.longitude, render);
    var c := OptField("altitude", g.altitude, render);
    var d := OptField("speed", g.speed, render);
    OptFieldKeys("latitude", g.latitude, render);
    OptFieldKeys("longitude", g.longitude, render);
    OptFieldKeys("altitude", g.altitude, render);
    OptFieldKeys("speed", g.speed, render);
    KeysAppend(a, b);
    KeysAppend(a + b, c);
    KeysAppend(a + b + c, d);
  }

  lemma OptFieldKeys(key: string, v: Option<real>, render: Render)
    ensures Keys(OptField(key, v, render)) == if v.Some? then [key] else []
  {
  }

  lemma KeysAppend(a: seq<Field>, b: seq<Field>)
    ensures Keys(a + b) == Keys(a) + Keys(b)
  {
  }

  // ---------------------------------------------------------------------
  // sendDataToInfluxDB
  // ---------------------------------------------------------------------

  datatype SendOutcome = SendOutcome(line: string, measurements: seq<M.Measurement>, fs: Q.FileSystem)

  /**
   Builds the record, attempts delivery (`delivered` is the transport's answer)
   and, on failure, appends exactly that record to the offline queue.
   */
  function SendDataToInfluxDB(settings: seq<M.MeasurementSetting>, ms: seq<M.Measurement>, gps: Option<GpsData>,
                              timestamp: int, render: Render, delivered: bool, fs: Q.FileSystem): (r: SendOutcome)
    requires |settings| >= ChannelCount && |ms| >= ChannelCount
    ensures r.line == ComposeRecord(settings, ms, gps, timestamp, render).0
    ensures delivered ==> r.fs == fs
    ensures !delivered && Q.OfflineLogFile in fs.writable ==>
              Q.StoreContent(r.fs) == Q.StoreContent(fs) + Q.UpToNul(r.line) + "\n"
    ensures !delivered && Q.OfflineLogFile !in fs.writable ==> r.fs == fs
    ensures r.fs.files - {Q.OfflineLogFile} == fs.files - {Q.OfflineLogFile}
    ensures r.measurements == RefreshActive(settings, ms)
  {
    var composed := ComposeRecord(settings, ms, gps, timestamp, render);
    var fs' := if delivered then fs else Q.Add(fs, composed.0);
    SendOutcome(composed.0, composed.1, fs')
  }

  /**
   A record queued after a failed send is read back whole by the next retry
   pass: records fit the 1024-byte buffer, so one `fgets` call reads each of
   them (provided the record holds no newline). What is queued and read back is
   the record up to any NUL byte, which is the whole record for a C string.
   */
  lemma QueuedRecordIsResentWhole(settings: seq<M.MeasurementSetting>, ms: seq<M.Measurement>, gps: Option<GpsData>,
                                   timestamp: int, render: Render, fs: Q.FileSystem, ls: seq<string>)
    requires |settings| >= ChannelCount && |ms| >= ChannelCount
    requires Q.StoreHolds(fs, ls) && Q.OfflineLogFile in fs.writable
    requires '\n' !in ComposeRecord(settings, ms, gps, timestamp, render).0
    ensures var out := SendDataToInfluxDB(settings, ms, gps, timestamp, render, false, fs);
            Q.StoredLines(Q.StoreContent(out.fs)) == ls + [Q.UpToNul(out.line)]
    ensures var out := SendDataToInfluxDB(settings, ms, gps, timestamp, render, false, fs);
            '\0' !in out.line ==> Q.StoredLines(Q.StoreContent(out.fs)) == ls + [out.line]
  {
    var line := ComposeRecord(settings, ms, gps, timestamp, render).0;
    var kept := Q.UpToNul(line);
    assert '\n' !in kept by {
      forall k | 0 <= k < |kept| ensures kept[k] != '\n' { assert kept[k] == line[k]; }
    }
    Q.AddExtends(fs, ls, kept);
    assert Q.Add(fs, kept) == Q.Add(fs, line);
    Q.StoredLinesOfJoin(ls + [kept]);
  }
}
