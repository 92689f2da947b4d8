/** Saving a TXY series to a stream and restoring it into an object in any earlier state. Text fields are
    fixed character buffers of which the part up to the terminator travels. */
module TxyCodec {
  import opened Options

  type Buffer = seq<char>

  const NUL := '\0'

  /** The text in a buffer: what stands in front of the first terminator. */
  function CString(b: Buffer): (s: string)
    ensures |s| <= |b| && s == b[..|s|] && (|s| < |b| ==> b[|s|] == NUL)
    ensures forall j :: 0 <= j < |s| ==> s[j] != NUL
  {
    if b == [] || b[0] == NUL then [] else [b[0]] + CString(b[1..])
  }

  ghost predicate Terminated(b: Buffer) {
    NUL in b
  }

  /** strcpy into a buffer with room for the text and its terminator. */
  function StrCpy(b: Buffer, s: string): (r: Buffer)
    requires |s| < |b|
    ensures |r| == |b|
  {
    s + [NUL] + b[|s| + 1..]
  }

  /** Copying a text into a buffer of any content gives back the text. */
  lemma {:induction false} CopyThenRead(b: Buffer, s: string)
    requires |s| < |b| && forall j :: 0 <= j < |s| ==> s[j] != NUL
    ensures CString(StrCpy(b, s)) == s && Terminated(StrCpy(b, s))
  {
    var r := StrCpy(b, s);
    assert r[|s|] == NUL;
    assert forall j :: 0 <= j < |s| ==> r[j] == s[j];
    assert |CString(r)| == |s|;
  }

  lemma TerminatedFits(b: Buffer)
    requires Terminated(b)
    ensures |CString(b)| < |b|
  {
    var i :| 0 <= i < |b| && b[i] == NUL;
    assert forall j :: 0 <= j < |CString(b)| ==> b[j] == CString(b)[j];
  }

  // The fields of the structure in the order of the stream, in three groups.
  datatype Front = Front(tag: int, tagType: int, clientData: int, kind: int,
    name: Buffer, text: Buffer, startTime: Buffer, padding6: Buffer, padding18: Buffer)

  datatype Middle = Middle(id: int, group: int, xUnit: int, xStep: int, ref: real, valUnit: int, dataType: int,
    missing: int, update: int, period: int, number: int, flags: int)

  datatype Back = Back(
    maxY: real, minY: real, origin: int, vlcode: int, producer: int, xFormat: Buffer, yFormat: Buffer)

  datatype Header = Header(front: Front, middle: Middle, back: Back)

  /** The buffers have the sizes of the structure; what they hold is arbitrary. */
  ghost predicate SizedFront(f: Front) {
    |f.name| == 41 && |f.text| == 100 && |f.startTime| == 18 && |f.padding6| == 1 && |f.padding18| == 4
  }

  ghost predicate SizedBack(b: Back) {
    |b.xFormat| == |b.yFormat| == 16
  }

  ghost predicate Sized(h: Header) {
    SizedFront(h.front) && SizedBack(h.back)
  }

  /** The buffers hold terminated texts as well. */
  ghost predicate ValidFront(f: Front) {
    && SizedFront(f)
    && Terminated(f.name) && Terminated(f.text) && Terminated(f.startTime)
    && Terminated(f.padding6) && Terminated(f.padding18)
  }

  ghost predicate ValidBack(b: Back) {
    SizedBack(b) && Terminated(b.xFormat) && Terminated(b.yFormat)
  }

  ghost predicate ValidHeader(h: Header) {
    ValidFront(h.front) && ValidBack(h.back)
  }

  /** A header with every text cut to the part up to its terminator. */
  ghost function FrontContent(f: Front): Front {
    f.(name := CString(f.name), text := CString(f.text), startTime := CString(f.startTime),
       padding6 := CString(f.padding6), padding18 := CString(f.padding18))
  }

  ghost function BackContent(b: Back): Back {
    b.(xFormat := CString(b.xFormat), yFormat := CString(b.yFormat))
  }

  ghost function Content(h: Header): Header {
    Header(FrontContent(h.front), h.middle, BackContent(h.back))
  }

  datatype Datum = I(i: int) | R(r: real) | S(text: string)

  const FRONT: nat := 9
  const MIDDLE: nat := 12
  const HEADER_LENGTH: nat := 28

  function SaveFront(f: Front): seq<Datum> {
    [I(f.tag), I(f.tagType), I(f.clientData), I(f.kind),
     S(CString(f.name)), S(CString(f.text)), S(CString(f.startTime)), S(CString(f.padding6)), S(CString(f.padding18))]
  }

  function SaveMiddle(m: Middle): seq<Datum> {
    [I(m.id), I(m.group), I(m.xUnit), I(m.xStep), R(m.ref), I(m.valUnit), I(m.dataType),
     I(m.missing), I(m.update), I(m.period), I(m.number), I(m.flags)]
  }

  function SaveBack(b: Back): seq<Datum> {
    [R(b.maxY), R(b.minY), I(b.origin), I(b.vlcode), I(b.producer), S(CString(b.xFormat)), S(CString(b.yFormat))]
  }

  function SaveHeader(h: Header): (data: seq<Datum>)
    ensures |data| == HEADER_LENGTH
  {
    SaveFront(h.front) + SaveMiddle(h.middle) + SaveBack(h.back)
  }

  predicate IsInt(data: seq<Datum>, i: nat) {
    i < |data| && data[i].I?
  }

  predicate IsReal(data: seq<Datum>, i: nat) {
    i < |data| && data[i].R?
  }

  predicate IsText(data: seq<Datum>, i: nat, b: Buffer) {
    i < |data| && data[i].S? && |data[i].text| < |b|
  }

  predicate ReadableFront(d: seq<Datum>, f: Front) {
    && IsInt(d, 0) && IsInt(d, 1) && IsInt(d, 2) && IsInt(d, 3)
    && IsText(d, 4, f.name) && IsText(d, 5, f.text) && IsText(d, 6, f.startTime) && IsText(d, 7, f.padding6)
    && IsText(d, 8, f.padding18)
  }

  predicate ReadableMiddle(d: seq<Datum>) {
    && IsInt(d, 0) && IsInt(d, 1) && IsInt(d, 2) && IsInt(d, 3) && IsReal(d, 4) && IsInt(d, 5) && IsInt(d, 6)
    && IsInt(d, 7) && IsInt(d, 8) && IsInt(d, 9) && IsInt(d, 10) && IsInt(d, 11)
  }

  predicate ReadableBack(d: seq<Datum>, b: Back) {
    && IsReal(d, 0) && IsReal(d, 1) && IsInt(d, 2) && IsInt(d, 3) && IsInt(d, 4)
    && IsText(d, 5, b.xFormat) && IsText(d, 6, b.yFormat)
  }

  /** The stream starts with a header whose texts fit the buffers of `h`. */
  predicate Readable(data: seq<Datum>, h: Header) {
    |data| >= HEADER_LENGTH && ReadableFront(data[..FRONT], h.front) && ReadableMiddle(data[FRONT..FRONT + MIDDLE])
    && ReadableBack(data[FRONT + MIDDLE..HEADER_LENGTH], h.back)
  }

  /** Reading the groups of a header into fields and buffers, in stream order. */
  function RestoreFront(f: Front, d: seq<Datum>): Front
    requires ReadableFront(d, f)
  {
    Front(d[0].i, d[1].i, d[2].i, d[3].i, StrCpy(f.name, d[4].text), StrCpy(f.text, d[5].text),
          StrCpy(f.startTime, d[6].text), StrCpy(f.padding6, d[7].text), StrCpy(f.padding18, d[8].text))
  }

  function RestoreMiddle(d: seq<Datum>): Middle
    requires ReadableMiddle(d)
  {
    Middle(d[0].i, d[1].i, d[2].i, d[3].i, d[4].r, d[5].i, d[6].i, d[7].i, d[8].i, d[9].i, d[10].i, d[11].i)
  }

  function RestoreBack(b: Back, d: seq<Datum>): Back
    requires ReadableBack(d, b)
  {
    Back(d[0].r, d[1].r, d[2].i, d[3].i, d[4].i, StrCpy(b.xFormat, d[5].text), StrCpy(b.yFormat, d[6].text))
  }

  function RestoreHeader(h: Header, data: seq<Datum>): Header
    requires Readable(data, h)
  {
    Header(RestoreFront(h.front, data[..FRONT]), RestoreMiddle(data[FRONT..FRONT + MIDDLE]),
           RestoreBack(h.back, data[FRONT + MIDDLE..HEADER_LENGTH]))
  }

  /** The text of `from` fits the buffer `to` and is read back from it. */
  ghost predicate Fits(from: Buffer, to: Buffer) {
    |CString(from)| < |to| && CString(StrCpy(to, CString(from))) == CString(from) &&
        Terminated(StrCpy(to, CString(from)))
  }

  lemma TextFits(from: Buffer, to: Buffer)
    requires Terminated(from) && |from| == |to|
    ensures Fits(from, to)
  {
    TerminatedFits(from);
    CopyThenRead(to, CString(from));
  }

  /** All texts of a header fit the buffers of another one. */
  lemma FrontFits(f: Front, before: Front)
    requires ValidFront(f) && SizedFront(before)
    ensures Fits(f.name, before.name) && Fits(f.text, before.text) && Fits(f.startTime, before.startTime)
    ensures Fits(f.padding6, before.padding6) && Fits(f.padding18, before.padding18)
  {
    TextFits(f.name, before.name);
    TextFits(f.text, before.text);
    TextFits(f.startTime, before.startTime);
    TextFits(f.padding6, before.padding6);
    TextFits(f.padding18, before.padding18);
  }

  lemma FrontIsReadable(f: Front, before: Front)
    requires ValidFront(f) && SizedFront(before)
    ensures ReadableFront(SaveFront(f), before)
  {
    FrontFits(f, before);
    hide CString, Terminated, StrCpy, ValidFront, SizedFront;
  }

  lemma FrontRoundTrip(f: Front, before: Front)
    requires ValidFront(f) && SizedFront(before)
    ensures ReadableFront(SaveFront(f), before)
    ensures var r := RestoreFront(before, SaveFront(f)); ValidFront(r) && FrontContent(r) == FrontContent(f)
  {
    FrontFits(f, before);
    FrontIsReadable(f, before);
    hide CString, Terminated, StrCpy;
  }

  lemma BackRoundTrip(b: Back, before: Back)
    requires ValidBack(b) && SizedBack(before)
    ensures ReadableBack(SaveBack(b), before)
    ensures var r := RestoreBack(before, SaveBack(b)); ValidBack(r) && BackContent(r) == BackContent(b)
  {
    TextFits(b.xFormat, before.xFormat);
    TextFits(b.yFormat, before.yFormat);
    hide CString, Terminated, StrCpy;
  }

  lemma MiddleRoundTrip(m: Middle)
    ensures ReadableMiddle(SaveMiddle(m)) && RestoreMiddle(SaveMiddle(m)) == m
  {
  }

  /** The groups of a saved header at the front of a stream. */
  lemma HeaderParts(h: Header, rest: seq<Datum>)
    ensures var data := SaveHeader(h) + rest;
            && data[..FRONT] == SaveFront(h.front)
            && data[FRONT..FRONT + MIDDLE] == SaveMiddle(h.middle)
            && data[FRONT + MIDDLE..HEADER_LENGTH] == SaveBack(h.back)
  {
  }

  /** A saved header restored over any memory of its size gives back every field, and every text up to
      its terminator. */
  lemma HeaderRoundTrip(h: Header, before: Header, rest: seq<Datum>)
    requires ValidHeader(h) && Sized(before)
    ensures Readable(SaveHeader(h) + rest, before)
    ensures var r := RestoreHeader(before, SaveHeader(h) + rest); ValidHeader(r) && Content(r) == Content(h)
  {
    HeaderParts(h, rest);
    FrontRoundTrip(h.front, before.front);
    MiddleRoundTrip(h.middle);
    BackRoundTrip(h.back, before.back);
    hide SaveFront, SaveMiddle, SaveBack, ReadableFront, ReadableMiddle, ReadableBack, FrontContent, BackContent;
    hide ValidFront, ValidBack, SizedFront, SizedBack;
    hide RestoreFront, RestoreMiddle, RestoreBack;
  }

  /** The value and status pairs in stream order. */
  function SavePoints(values: seq<real>, status: seq<int>): seq<Datum>
    requires |values| == |status|
  {
    if values == [] then []
    else SavePoints(values[..|values| - 1], status[..|status| - 1]) + [R(values[|values| - 1]), I(status[|status| - 1])]
  }

  lemma {:induction false} PointAt(values: seq<real>, status: seq<int>, j: nat)
    requires |values| == |status| && j < |values|
    ensures var data := SavePoints(values, status);
            |data| == 2 * |values| && data[2 * j] == R(values[j]) && data[2 * j + 1] == I(status[j])
  {
    var n := |values| - 1;
    if n == 0 {
      assert SavePoints(values[..n], status[..n]) == [];
    } else if j < n {
      PointAt(values[..n], status[..n], j);
    } else {
      PointAt(values[..n], status[..n], 0);
    }
  }

  lemma PointCount(values: seq<real>, status: seq<int>)
    requires |values| == |status|
    ensures |SavePoints(values, status)| == 2 * |values|
  {
    if values != [] {
      PointAt(values, status, 0);
    }
  }

  /** The value of a series. */
  datatype Series = Series(header: Header, numValues: int, values: seq<real>, status: seq<int>)

  ghost predicate ValidSeries(s: Series) {
    ValidHeader(s.header) && |s.values| == |s.status| == if s.numValues < 0 then 0 else s.numValues
  }

  /** A series as it stands in the stream. */
  ghost function Encode(s: Series): seq<Datum>
    requires |s.values| == |s.status|
  {
    SaveHeader(s.header) + ([I(s.numValues)] + SavePoints(s.values, s.status))
  }

  class TxySeries {
    var header: Header
    var numValues: int
    var values: array<real>
    var status: array<int>

    /** TXY_create: room for `n` values; what the header holds is arbitrary. */
    constructor (header: Header, n: nat)
      ensures this.header == header && numValues == n && fresh(values) && fresh(status)
      ensures values.Length == status.Length == n
    {
      this.header, numValues := header, n;
      values, status := new real[n], new int[n];
    }

    ghost function Value(): Series
      reads this, values, status
    {
      Series(header, numValues, values[..], status[..])
    }

    method SaveGuts(o: seq<Datum>) returns (o': seq<Datum>)
      requires ValidSeries(Value())
      ensures o' == o + Encode(Value())
    {
      hide SaveHeader, ValidHeader;
      o' := o + SaveHeader(header);
      o' := o' + [I(numValues)];
      ghost var front := o';
      var j := 0;
      while j < numValues
        invariant 0 <= j <= values.Length
        invariant o' == front + SavePoints(values[..j], status[..j])
      {
        assert values[..j + 1][..j] == values[..j] && status[..j + 1][..j] == status[..j];
        o' := o' + [R(values[j])];
        o' := o' + [I(status[j])];
        j := j + 1;
      }
      assert values[..j] == values[..] && status[..j] == status[..];
    }

    /** TXY_realloc: room for `n` values; the header stays. */
    method Realloc(n: int)
      modifies this`values, this`status
      ensures values.Length == status.Length == (if n < 0 then 0 else n) && fresh(values) && fresh(status)
    {
      var room := if n < 0 then 0 else n;
      values, status := new real[room], new int[room];
    }

    /** Reads the pairs from the front of `data`. */
    method RestorePoints(data: seq<Datum>, ghost v: seq<real>, ghost s: seq<int>)
      requires |v| == |s| == values.Length == status.Length == if numValues < 0 then 0 else numValues
      requires SavePoints(v, s) <= data
      modifies values, status
      ensures values[..] == v && status[..] == s
    {
      var j := 0;
      while j < numValues
        invariant 0 <= j <= values.Length
        invariant forall k :: 0 <= k < j ==> values[k] == v[k] && status[k] == s[k]
      {
        PointAt(v, s, j);
        values[j] := data[2 * j].r;
        status[j] := data[2 * j + 1].i;
        j := j + 1;
      }
    }

    /** Restores what stands at the front of the stream over memory of any content. */
    method RestoreGuts(i: seq<Datum>, ghost saved: Series, ghost rest: seq<Datum>) returns (i': seq<Datum>)
      requires Sized(header) && ValidSeries(saved)
      requires i == Encode(saved) + rest
      modifies this
      ensures i' == rest && fresh(values) && fresh(status)
      ensures ValidSeries(Value()) && Content(header) == Content(saved.header)
      ensures Value() == saved.(header := header)
    {
      hide SaveHeader, Content, ValidHeader, Sized, Readable, RestoreHeader;
      ghost var points := SavePoints(saved.values, saved.status);
      assert i == SaveHeader(saved.header) + ([I(saved.numValues)] + points + rest);
      HeaderRoundTrip(saved.header, header, [I(saved.numValues)] + points + rest);
      header := RestoreHeader(header, i);
      assert i[HEADER_LENGTH..] == [I(saved.numValues)] + points + rest;
      assert i[HEADER_LENGTH] == i[HEADER_LENGTH..][0];
      var n := i[HEADER_LENGTH].i;
      var tail := i[HEADER_LENGTH + 1..];
      assert tail == points + rest;
      Realloc(n);
      numValues := n;
      PointCount(saved.values, saved.status);
      RestorePoints(tail, saved.values, saved.status);
      i' := tail[2 * values.Length..];
    }
  }

  /** The stream of a series, field by field: the order is that of the macro. */
  lemma StreamOrder(s: Series)
    requires |s.values| == |s.status|
    ensures var f, m, b := s.header.front, s.header.middle, s.header.back;
            && |Encode(s)| == 29 + 2 * |s.values|
            && Encode(s)[..29] ==
               [I(f.tag), I(f.tagType), I(f.clientData), I(f.kind), S(CString(f.name)), S(CString(f.text)),
                S(CString(f.startTime)), S(CString(f.padding6)), S(CString(f.padding18)),
                I(m.id), I(m.group), I(m.xUnit), I(m.xStep), R(m.ref), I(m.valUnit), I(m.dataType), I(m.missing),
                I(m.update), I(m.period), I(m.number), I(m.flags),
                R(b.maxY), R(b.minY), I(b.origin), I(b.vlcode), I(b.producer), S(CString(b.xFormat)),
                S(CString(b.yFormat)), I(s.numValues)]
    ensures forall j :: 0 <= j < |s.values| ==>
              Encode(s)[29 + 2 * j] == R(s.values[j]) && Encode(s)[30 + 2 * j] == I(s.status[j])
  {
    hide CString, SavePoints;
    PointCount(s.values, s.status);
    var points := SavePoints(s.values, s.status);
    assert Encode(s)[29..] == points;
    forall j | 0 <= j < |s.values|
      ensures Encode(s)[29 + 2 * j] == R(s.values[j]) && Encode(s)[30 + 2 * j] == I(s.status[j])
    {
      PointAt(s.values, s.status, j);
      assert Encode(s)[29..][2 * j] == points[2 * j] && Encode(s)[29..][2 * j + 1] == points[2 * j + 1];
    }
  }

  /** What a message with or without a series puts into the stream. */
  ghost function EncodeMessage(s: Option<Series>): seq<Datum>
    requires s.Some? ==> |s.value.values| == |s.value.status|
  {
    if s.Some? then Encode(s.value) else []
  }

  class PDTXYMsg {
    var txy: TxySeries?

    constructor ()
      ensures txy == null
    {
      txy := null;
    }

    method SetMsg(p: TxySeries?)
      modifies this
      ensures txy == p
    {
      txy := p;
    }

    ghost function Value(): Option<Series>
      reads this, txy, if txy == null then {} else {txy.values}, if txy == null then {} else {txy.status}
    {
      if txy == null then None else Some(txy.Value())
    }

    /** Appends the series; a message without one saves nothing. */
    method SaveGuts(o: seq<Datum>) returns (o': seq<Datum>)
      requires txy != null ==> ValidSeries(txy.Value())
      ensures o' == o + EncodeMessage(Value())
    {
      if txy == null {
        return o;
      }
      o' := txy.SaveGuts(o);
    }

    /** Restores a saved series and leaves the rest of the stream: every field, every text up to its
        terminator and all pairs come back, whatever this message held before. Without a series one is
        created, in memory of the content `raw`. */
    method RestoreGuts(i: seq<Datum>, raw: Header, ghost saved: Series, ghost rest: seq<Datum>) returns (i': seq<Datum>)
      requires if txy == null then Sized(raw) else Sized(txy.header)
      requires ValidSeries(saved) && i == Encode(saved) + rest
      modifies this, txy
      ensures i' == rest && txy != null && (old(txy) != null ==> txy == old(txy))
      ensures ValidSeries(txy.Value()) && Content(txy.header) == Content(saved.header)
      ensures txy.Value() == saved.(header := txy.header)
    {
      if txy == null {
        txy := new TxySeries(raw, 1);
      }
      i' := txy.RestoreGuts(i, saved, rest);
    }
  }

  /** What is saved can be restored on its own exactly when there is a series: restoring always reads
      one, and a message without a series saves nothing. */
  lemma RestorableIffPresent(s: Option<Series>, before: Header)
    requires Sized(before) && (s.Some? ==> ValidSeries(s.value))
    ensures Readable(EncodeMessage(s), before) <==> s.Some?
  {
    hide SaveHeader, ValidHeader, Sized, ReadableFront, ReadableMiddle, ReadableBack;
    if s.Some? {
      HeaderRoundTrip(s.value.header, before, [I(s.value.numValues)] + SavePoints(s.value.values, s.value.status));
    }
  }
}
