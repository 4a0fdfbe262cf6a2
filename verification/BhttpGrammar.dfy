/** Which byte strings are Binary HTTP messages, by a grammar of cuts alone; the decoders
    accept exactly those, and the encoders never refuse a message that fits. */
module BhttpGrammar {
  import opened Common
  import opened Varint
  import opened Bhttp

  // ---- The grammar ----------------------------------------------------------------

  /** One integer in any of its widths, not only the shortest, and nothing else. */
  predicate IsVarint(p: Bytes, n: nat) {
    Read(p) == Ok((n, []))
  }

  predicate IsString(p: Bytes, s: Bytes) {
    |s| <= |p| && p[|p| - |s|..] == s && IsVarint(p[..|p| - |s|], |s|)
  }

  predicate LineCut(p: Bytes, f: Field, cut: nat) {
    cut <= |p| && IsString(p[..cut], f.0) && IsString(p[cut..], f.1)
  }

  ghost predicate IsLine(p: Bytes, f: Field) {
    exists cut: nat :: LineCut(p, f, cut)
  }

  ghost predicate FieldsCut(p: Bytes, fields: seq<Field>, cut: nat)
    requires fields != []
    decreases |fields|, 0
  {
    cut <= |p| && IsLine(p[..cut], fields[0]) && IsFields(p[cut..], fields[1..])
  }

  ghost predicate IsFields(p: Bytes, fields: seq<Field>)
    decreases |fields|, 1
  {
    if fields == [] then p == [] else exists cut: nat :: FieldsCut(p, fields, cut)
  }

  ghost predicate SectionCut(p: Bytes, fields: seq<Field>, cut: nat) {
    cut <= |p| && IsVarint(p[..cut], |p| - cut) && IsFields(p[cut..], fields)
  }

  ghost predicate IsSection(p: Bytes, fields: seq<Field>) {
    exists cut: nat :: SectionCut(p, fields, cut)
  }

  ghost predicate TrailerCut(p: Bytes, cut: nat, fields: seq<Field>) {
    cut <= |p| && IsSection(p[..cut], fields)
  }

  /** Nothing, or any section; what follows it is not looked at. */
  ghost predicate IsTrailer(p: Bytes) {
    p == [] || exists cut: nat, fields :: TrailerCut(p, cut, fields)
  }

  ghost predicate RequestParts(b: Bytes, req: Request, p: seq<Bytes>) {
    && |p| == 8 && b == p[0] + (p[1] + (p[2] + (p[3] + (p[4] + (p[5] + (p[6] + p[7]))))))
    && IsVarint(p[0], 0) && IsString(p[1], req.verb) && IsString(p[2], req.scheme) && IsString(p[3], req.authority)
    && IsString(p[4], req.path) && IsSection(p[5], req.headers) && IsString(p[6], req.body) && IsTrailer(p[7])
  }

  ghost predicate IsRequest(b: Bytes, req: Request) {
    exists p :: RequestParts(b, req, p)
  }

  ghost predicate ResponseParts(b: Bytes, res: Response, p: seq<Bytes>) {
    && |p| == 5 && b == p[0] + (p[1] + (p[2] + (p[3] + p[4])))
    && res.status >= 0 && !(100 <= res.status <= 199)
    && IsVarint(p[0], 1) && IsVarint(p[1], res.status) && IsSection(p[2], res.headers) && IsString(p[3], res.body) && IsTrailer(p[4])
  }

  ghost predicate IsResponse(b: Bytes, res: Response) {
    exists p :: ResponseParts(b, res, p)
  }

  // ---- What is read is of the grammar ---------------------------------------------

  /** What a reader has taken when `rest` is left. */
  function Taken(b: Bytes, rest: Bytes): Bytes
    requires |rest| <= |b|
  {
    b[..|b| - |rest|]
  }

  predicate IsEnd(b: Bytes, rest: Bytes) {
    |rest| <= |b| && b[|b| - |rest|..] == rest
  }

  lemma EndOfEnd(b: Bytes, mid: Bytes, rest: Bytes)
    requires IsEnd(b, mid) && IsEnd(mid, rest)
    ensures IsEnd(b, rest) && Taken(b, rest) == Taken(b, mid) + Taken(mid, rest)
    ensures IsEnd(Taken(b, rest), Taken(mid, rest)) && Taken(b, rest)[..|b| - |mid|] == Taken(b, mid)
  {
  }

  lemma VarintTaken(b: Bytes)
    requires Read(b).Ok?
    ensures var (n, rest) := Read(b).value; IsEnd(b, rest) && IsVarint(Taken(b, rest), n)
  {
    var w := WidthOf(b[0]);
    var p := b[..w];
    assert p[..w] == p && p[w..] == [] && b[|b| - |b[w..]|..] == b[w..];
  }

  lemma VarintGiven(p: Bytes, n: nat, rest: Bytes)
    requires IsVarint(p, n)
    ensures Read(p + rest) == Ok((n, rest))
  {
    ReadExtends(p, rest);
    assert [] + rest == rest;
  }

  lemma StringTaken(b: Bytes)
    requires ReadBytes(b).Ok?
    ensures var (s, rest) := ReadBytes(b).value; IsEnd(b, rest) && IsString(Taken(b, rest), s)
  {
    hide Read;
    VarintTaken(b);
    var (len, after) := Read(b).value;
    var s, rest := after[..len], after[len..];
    EndOfEnd(b, after, rest);
    assert Taken(after, rest) == s;
  }

  lemma StringGiven(p: Bytes, s: Bytes, rest: Bytes)
    requires IsString(p, s)
    ensures ReadBytes(p + rest) == Ok((s, rest))
  {
    hide Read;
    var l := p[..|p| - |s|];
    assert p + rest == l + (s + rest);
    VarintGiven(l, |s|, s + rest);
  }

  lemma LineTaken(b: Bytes)
    requires ReadLine(b).Ok?
    ensures var (f, rest) := ReadLine(b).value; IsEnd(b, rest) && IsLine(Taken(b, rest), f)
  {
    hide ReadBytes, IsString;
    StringTaken(b);
    var (name, mid) := ReadBytes(b).value;
    StringTaken(mid);
    var (value, rest) := ReadBytes(mid).value;
    EndOfEnd(b, mid, rest);
    assert LineCut(Taken(b, rest), (name, value), |b| - |mid|);
  }

  lemma LineGiven(p: Bytes, f: Field, rest: Bytes)
    requires IsLine(p, f)
    ensures ReadLine(p + rest) == Ok((f, rest))
    ensures p != []
  {
    hide ReadBytes, IsString;
    var cut: nat :| LineCut(p, f, cut);
    NotEmpty(p[..cut], f.0);
    StringGiven(p[..cut], f.0, p[cut..] + rest);
    StringGiven(p[cut..], f.1, rest);
    assert p + rest == p[..cut] + (p[cut..] + rest);
  }

  lemma NotEmpty(p: Bytes, s: Bytes)
    requires IsString(p, s)
    ensures p != []
  {
  }

  lemma {:induction false} FieldsTaken(b: Bytes, left: nat)
    requires ReadLines(b, left).Ok?
    ensures var (fields, rest) := ReadLines(b, left).value;
            IsEnd(b, rest) && |rest| == |b| - left && IsFields(Taken(b, rest), fields)
    decreases |b|
  {
    hide ReadLine, IsLine;
    if left > 0 {
      LineTaken(b);
      var (f, mid) := ReadLine(b).value;
      FieldsTaken(mid, left - (|b| - |mid|));
      var (fields, rest) := ReadLines(mid, left - (|b| - |mid|)).value;
      EndOfEnd(b, mid, rest);
      assert ([f] + fields)[1..] == fields;
      assert FieldsCut(Taken(b, rest), [f] + fields, |b| - |mid|);
    }
  }

  lemma {:induction false} FieldsGiven(p: Bytes, fields: seq<Field>, rest: Bytes)
    requires IsFields(p, fields)
    ensures ReadLines(p + rest, |p|) == Ok((fields, rest))
    decreases |fields|
  {
    hide ReadLine, IsLine;
    if fields == [] {
      assert p + rest == rest;
    } else {
      var cut: nat :| FieldsCut(p, fields, cut);
      LineGiven(p[..cut], fields[0], p[cut..] + rest);
      FieldsGiven(p[cut..], fields[1..], rest);
      assert p + rest == p[..cut] + (p[cut..] + rest);
      assert [fields[0]] + fields[1..] == fields;
    }
  }

  lemma SectionTaken(b: Bytes)
    requires ReadSection(b).Ok?
    ensures var (fields, rest) := ReadSection(b).value; IsEnd(b, rest) && IsSection(Taken(b, rest), fields)
  {
    hide Read, ReadLines, IsFields;
    VarintTaken(b);
    var (len, mid) := Read(b).value;
    FieldsTaken(mid, len);
    var (fields, rest) := ReadLines(mid, len).value;
    EndOfEnd(b, mid, rest);
    assert SectionCut(Taken(b, rest), fields, |b| - |mid|);
  }

  lemma SectionGiven(p: Bytes, fields: seq<Field>, rest: Bytes)
    requires IsSection(p, fields)
    ensures ReadSection(p + rest) == Ok((fields, rest))
  {
    hide Read, ReadLines, IsFields;
    var cut: nat :| SectionCut(p, fields, cut);
    VarintGiven(p[..cut], |p| - cut, p[cut..] + rest);
    FieldsGiven(p[cut..], fields, rest);
    assert p + rest == p[..cut] + (p[cut..] + rest);
  }

  lemma TrailerTaken(t: Bytes)
    ensures IsTrailer(t) <==> t == [] || ReadSection(t).Ok?
  {
    hide ReadSection, IsSection;
    if t != [] && ReadSection(t).Ok? {
      SectionTaken(t);
      var (fields, rest) := ReadSection(t).value;
      assert TrailerCut(t, |t| - |rest|, fields);
    }
    if t != [] && IsTrailer(t) {
      var cut: nat, fields :| TrailerCut(t, cut, fields);
      SectionGiven(t[..cut], fields, t[cut..]);
      assert t == t[..cut] + t[cut..];
    }
  }

  // ---- Whole messages -------------------------------------------------------------

  /** A string of bytes cut where each reader stopped. */
  lemma Apart(b: Bytes, rest: Bytes)
    requires IsEnd(b, rest)
    ensures b == Taken(b, rest) + rest
  {
  }

  lemma RequestTaken(b: Bytes, req: Request)
    requires DecodedRequest(b) == Ok(req)
    ensures IsRequest(b, req)
  {
    hide Read, ReadBytes, ReadSection, IsVarint, IsString, IsSection, IsTrailer, Taken, IsEnd;
    VarintTaken(b);
    var b0 := Read(b).value.1;
    StringTaken(b0);
    var b1 := ReadBytes(b0).value.1;
    StringTaken(b1);
    var b2 := ReadBytes(b1).value.1;
    StringTaken(b2);
    var b3 := ReadBytes(b2).value.1;
    StringTaken(b3);
    var b4 := ReadBytes(b3).value.1;
    SectionTaken(b4);
    var b5 := ReadSection(b4).value.1;
    StringTaken(b5);
    var b6 := ReadBytes(b5).value.1;
    TrailerTaken(b6);
    Apart(b, b0);
    Apart(b0, b1);
    Apart(b1, b2);
    Apart(b2, b3);
    Apart(b3, b4);
    Apart(b4, b5);
    Apart(b5, b6);
    IsEndShorter(b, b0);
    IsEndShorter(b0, b1);
    IsEndShorter(b1, b2);
    IsEndShorter(b2, b3);
    IsEndShorter(b3, b4);
    IsEndShorter(b4, b5);
    IsEndShorter(b5, b6);
    assert RequestParts(b, req, [Taken(b, b0), Taken(b0, b1), Taken(b1, b2), Taken(b2, b3), Taken(b3, b4),
                                 Taken(b4, b5), Taken(b5, b6), b6]);
  }

  lemma IsEndShorter(b: Bytes, rest: Bytes)
    requires IsEnd(b, rest)
    ensures |rest| <= |b|
  {
  }

  lemma RequestGiven(b: Bytes, req: Request, p: seq<Bytes>)
    requires RequestParts(b, req, p)
    ensures DecodedRequest(b) == Ok(req)
  {
    hide Read, ReadBytes, ReadSection, IsVarint, IsString, IsSection, IsTrailer;
    var b6 := p[7];
    TrailerTaken(b6);
    var b5 := p[6] + b6;
    StringGiven(p[6], req.body, b6);
    var b4 := p[5] + b5;
    SectionGiven(p[5], req.headers, b5);
    var b3 := p[4] + b4;
    StringGiven(p[4], req.path, b4);
    var b2 := p[3] + b3;
    StringGiven(p[3], req.authority, b3);
    var b1 := p[2] + b2;
    StringGiven(p[2], req.scheme, b2);
    var b0 := p[1] + b1;
    StringGiven(p[1], req.verb, b1);
    VarintGiven(p[0], 0, b0);
  }

  /** The request decoder accepts exactly the byte strings of the grammar, each as the one
      request it spells. */
  lemma RequestsOfTheGrammar(b: Bytes, req: Request)
    ensures DecodedRequest(b) == Ok(req) <==> IsRequest(b, req)
  {
    hide DecodedRequest, RequestParts;
    if DecodedRequest(b) == Ok(req) {
      RequestTaken(b, req);
    } else if IsRequest(b, req) {
      var p :| RequestParts(b, req, p);
      RequestGiven(b, req, p);
    }
  }

  lemma ResponseTaken(b: Bytes, res: Response)
    requires DecodedResponse(b) == Ok(res)
    ensures IsResponse(b, res)
  {
    hide Read, ReadBytes, ReadSection, IsVarint, IsString, IsSection, IsTrailer, Taken, IsEnd;
    VarintTaken(b);
    var b0 := Read(b).value.1;
    VarintTaken(b0);
    var b1 := Read(b0).value.1;
    SectionTaken(b1);
    var b2 := ReadSection(b1).value.1;
    StringTaken(b2);
    var b3 := ReadBytes(b2).value.1;
    TrailerTaken(b3);
    Apart(b, b0);
    Apart(b0, b1);
    Apart(b1, b2);
    Apart(b2, b3);
    IsEndShorter(b, b0);
    IsEndShorter(b0, b1);
    IsEndShorter(b1, b2);
    IsEndShorter(b2, b3);
    assert ResponseParts(b, res, [Taken(b, b0), Taken(b0, b1), Taken(b1, b2), Taken(b2, b3), b3]);
  }

  lemma ResponseGiven(b: Bytes, res: Response, p: seq<Bytes>)
    requires ResponseParts(b, res, p)
    ensures DecodedResponse(b) == Ok(res)
  {
    hide Read, ReadBytes, ReadSection, IsVarint, IsString, IsSection, IsTrailer;
    var b3 := p[4];
    TrailerTaken(b3);
    var b2 := p[3] + b3;
    StringGiven(p[3], res.body, b3);
    var b1 := p[2] + b2;
    SectionGiven(p[2], res.headers, b2);
    var b0 := p[1] + b1;
    VarintGiven(p[1], res.status, b1);
    VarintGiven(p[0], 1, b0);
  }

  lemma ResponsesOfTheGrammar(b: Bytes, res: Response)
    ensures DecodedResponse(b) == Ok(res) <==> IsResponse(b, res)
  {
    hide DecodedResponse, ResponseParts;
    if DecodedResponse(b) == Ok(res) {
      ResponseTaken(b, res);
    } else if IsResponse(b, res) {
      var p :| ResponseParts(b, res, p);
      ResponseGiven(b, res, p);
    }
  }

  /** A reader fails for its own reasons, never for the kind of the message. */
  predicate IsReadError<T>(r: Result<T, Error>) {
    r.Err? ==> r.error.Truncated? || r.error.Unsafe? || r.error.LengthMismatch?
  }

  lemma BytesFail(b: Bytes)
    ensures IsReadError(Read(b)) && IsReadError(ReadBytes(b))
  {
  }

  lemma {:induction false} LinesFail(b: Bytes, left: nat)
    ensures IsReadError(ReadLines(b, left))
    decreases |b|
  {
    hide ReadBytes;
    BytesFail(b);
    if ReadBytes(b).Ok? { BytesFail(ReadBytes(b).value.1); }
    if left > 0 && ReadLine(b).Ok? {
      var rest := ReadLine(b).value.1;
      if |b| - |rest| <= left { LinesFail(rest, left - (|b| - |rest|)); }
    }
  }

  lemma SectionFails(b: Bytes)
    ensures IsReadError(ReadSection(b))
  {
    hide Read, ReadLines;
    BytesFail(b);
    if Read(b).Ok? { LinesFail(Read(b).value.1, Read(b).value.0); }
  }

  lemma RequestFails(b: Bytes)
    ensures IsReadError(ReadRequest(b)) || (ReadRequest(b) == Err(WrongFraming) && Read(b).Ok? && Read(b).value.0 != 0)
    ensures Read(b).Ok? && Read(b).value.0 != 0 ==> ReadRequest(b) == Err(WrongFraming)
  {
    hide Read, ReadBytes, ReadSection;
    BytesFail(b);
    if Read(b).Err? || Read(b).value.0 != 0 { return; }
    var b0 := Read(b).value.1;
    BytesFail(b0);
    if ReadBytes(b0).Err? { return; }
    var b1 := ReadBytes(b0).value.1;
    BytesFail(b1);
    if ReadBytes(b1).Err? { return; }
    var b2 := ReadBytes(b1).value.1;
    BytesFail(b2);
    if ReadBytes(b2).Err? { return; }
    var b3 := ReadBytes(b2).value.1;
    BytesFail(b3);
    if ReadBytes(b3).Err? { return; }
    var b4 := ReadBytes(b3).value.1;
    SectionFails(b4);
    if ReadSection(b4).Err? { return; }
    BytesFail(ReadSection(b4).value.1);
  }

  lemma ResponseFails(b: Bytes)
    ensures Read(b).Err? ==> IsReadError(ReadResponse(b))
    ensures Read(b).Ok? && Read(b).value.0 != 1 ==> ReadResponse(b) == Err(WrongFraming)
    ensures Read(b).Ok? && Read(b).value.0 == 1 ==>
              var rest := Read(b).value.1;
              if Read(rest).Ok? && 100 <= Read(rest).value.0 <= 199 then ReadResponse(b) == Err(Informational)
              else IsReadError(ReadResponse(b))
  {
    hide Read, ReadBytes, ReadSection;
    BytesFail(b);
    if Read(b).Err? || Read(b).value.0 != 1 { return; }
    var b0 := Read(b).value.1;
    BytesFail(b0);
    if Read(b0).Err? || 100 <= Read(b0).value.0 <= 199 { return; }
    var b1 := Read(b0).value.1;
    SectionFails(b1);
    if ReadSection(b1).Err? { return; }
    BytesFail(ReadSection(b1).value.1);
  }

  lemma TrailerFails<T>(core: Result<(T, Bytes), Error>)
    ensures core.Err? ==> WithTrailer(core) == Err(core.error)
    ensures core.Ok? ==> IsReadError(WithTrailer(core))
  {
    hide ReadSection;
    if core.Ok? { SectionFails(core.value.1); }
  }

  /** A message of the other kind is told from a malformed one, and so is an informational
      response. */
  lemma WrongKind(b: Bytes)
    ensures DecodedRequest(b) == Err(WrongFraming) <==> Read(b).Ok? && Read(b).value.0 != 0
    ensures DecodedResponse(b) == Err(WrongFraming) <==> Read(b).Ok? && Read(b).value.0 != 1
    ensures DecodedResponse(b) == Err(Informational) <==>
              && Read(b).Ok? && Read(b).value.0 == 1
              && var rest := Read(b).value.1; Read(rest).Ok? && 100 <= Read(rest).value.0 <= 199
  {
    RequestFails(b);
    ResponseFails(b);
    TrailerFails(ReadRequest(b));
    TrailerFails(ReadResponse(b));
    hide Read, ReadRequest, ReadResponse, WithTrailer;
  }

  // ---- When the encoders succeed --------------------------------------------------

  const MOST: nat := 9_007_199_254_740_991

  predicate Small(s: Bytes) {
    |s| <= MOST
  }

  function IntegerSize(v: nat): nat {
    if v <= 63 then 1 else if v <= 16_383 then 2 else if v <= 1_073_741_823 then 4 else 8
  }

  function StringSize(s: Bytes): nat {
    IntegerSize(|s|) + |s|
  }

  /** The bytes a header list takes. */
  function HeaderSize(headers: seq<Field>): nat {
    if headers == [] then 0 else
    HeaderSize(headers[..|headers| - 1]) + StringSize(headers[|headers| - 1].0) + StringSize(headers[|headers| - 1].1)
  }

  lemma StringEncodes(s: Bytes)
    ensures Prefixed(s) == Err(TooLarge) <==> !Small(s)
    ensures Prefixed(s).Ok? <==> Small(s)
    ensures Small(s) ==> |Prefixed(s).value| == StringSize(s)
  {
    EncodeOutcome(|s|);
  }

  lemma {:induction false} LinesEncode(headers: seq<Field>)
    ensures Lines(headers) == Err(TooLarge) || (Lines(headers).Ok? && |Lines(headers).value| == HeaderSize(headers))
    ensures HeaderSize(headers) <= MOST ==> Lines(headers).Ok?
  {
    hide Prefixed, Small;
    if headers != [] {
      var last := headers[|headers| - 1];
      LinesEncode(headers[..|headers| - 1]);
      StringEncodes(last.0);
      StringEncodes(last.1);
      SmallParts(last.0);
      SmallParts(last.1);
    }
  }

  lemma SmallParts(s: Bytes)
    ensures StringSize(s) <= MOST ==> Small(s)
  {
  }

  lemma SectionEncodes(headers: seq<Field>)
    ensures Section(headers).Ok? <==> HeaderSize(headers) <= MOST
    ensures Section(headers).Err? ==> Section(headers).error == TooLarge
  {
    hide Lines, Prefixed;
    LinesEncode(headers);
    if Lines(headers).Ok? { StringEncodes(Lines(headers).value); }
  }

  /** A request is encoded unless one of its strings, or its header lines together, is 2^53
      bytes or longer. */
  lemma RequestEncodes(req: Request)
    ensures EncodedRequest(req).Ok? <==>
              && Small(req.verb) && Small(req.scheme) && Small(req.authority) && Small(req.path) && Small(req.body)
              && HeaderSize(req.headers) <= MOST
    ensures EncodedRequest(req).Err? ==> EncodedRequest(req).error == TooLarge
  {
    hide Prefixed, Section, Small, HeaderSize;
    StringEncodes(req.verb);
    StringEncodes(req.scheme);
    StringEncodes(req.authority);
    StringEncodes(req.path);
    SectionEncodes(req.headers);
    StringEncodes(req.body);
  }

  lemma ResponseEncodes(res: Response)
    ensures EncodedResponse(res).Ok? <==> 0 <= res.status <= MOST && Small(res.body) && HeaderSize(res.headers) <= MOST
    ensures EncodedResponse(res).Err? ==> EncodedResponse(res).error == if res.status < 0 then BadValue else TooLarge
  {
    hide Prefixed, Section, Small, HeaderSize, Encoded;
    EncodeOutcome(res.status);
    SectionEncodes(res.headers);
    StringEncodes(res.body);
  }
}
