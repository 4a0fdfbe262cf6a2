/** Binary HTTP messages of known length (RFC 9292), as byte strings. */
module Bhttp {
  import opened Common
  import opened Varint

  type Field = (Bytes, Bytes)

  /** Strings are their UTF-8 bytes. */
  datatype Request = Request(verb: Bytes, scheme: Bytes, authority: Bytes, path: Bytes, headers: seq<Field>, body: Bytes)

  datatype Response = Response(status: int, headers: seq<Field>, body: Bytes)

  const REQUEST: nat := 0
  const RESPONSE: nat := 1

  // ---- The format -----------------------------------------------------------------

  function Prefixed(b: Bytes): Result<Bytes, Error> {
    var len :- Encoded(|b|);
    Ok(len + b)
  }

  function Line(f: Field): Result<Bytes, Error> {
    var name :- Prefixed(f.0);
    var value :- Prefixed(f.1);
    Ok(name + value)
  }

  function Lines(headers: seq<Field>): Result<Bytes, Error> {
    if headers == [] then Ok([]) else
    var init :- Lines(headers[..|headers| - 1]);
    var last :- Line(headers[|headers| - 1]);
    Ok(init + last)
  }

  function Section(headers: seq<Field>): Result<Bytes, Error> {
    var lines :- Lines(headers);
    Prefixed(lines)
  }

  /** The trailer section is always the empty one. */
  const TRAILER: Bytes := [0]

  function RequestWith(req: Request, trailer: Bytes): Result<Bytes, Error> {
    var verb :- Prefixed(req.verb);
    var scheme :- Prefixed(req.scheme);
    var authority :- Prefixed(req.authority);
    var path :- Prefixed(req.path);
    var headers :- Section(req.headers);
    var content :- Prefixed(req.body);
    Ok([REQUEST] + (verb + (scheme + (authority + (path + (headers + (content + trailer)))))))
  }

  function ResponseWith(res: Response, trailer: Bytes): Result<Bytes, Error> {
    var status :- Encoded(res.status);
    var headers :- Section(res.headers);
    var content :- Prefixed(res.body);
    Ok([RESPONSE] + (status + (headers + (content + trailer))))
  }

  function EncodedRequest(req: Request): Result<Bytes, Error> {
    RequestWith(req, TRAILER)
  }

  function EncodedResponse(res: Response): Result<Bytes, Error> {
    ResponseWith(res, TRAILER)
  }

  function ReadBytes(b: Bytes): (r: Result<(Bytes, Bytes), Error>)
    ensures r.Ok? ==> |r.value.1| < |b|
  {
    var (len, rest) :- Read(b);
    if len > |rest| then Err(Truncated) else Ok((rest[..len], rest[len..]))
  }

  function ReadLine(b: Bytes): (r: Result<(Field, Bytes), Error>)
    ensures r.Ok? ==> |r.value.1| < |b|
  {
    var (name, afterName) :- ReadBytes(b);
    var (value, rest) :- ReadBytes(afterName);
    Ok(((name, value), rest))
  }

  /** The fields of the next `left` bytes. A field may be read past them; the section is
      then refused. */
  function ReadLines(b: Bytes, left: nat): Result<(seq<Field>, Bytes), Error>
    decreases |b|
  {
    if left == 0 then Ok(([], b)) else
    var (field, rest) :- ReadLine(b);
    var taken := |b| - |rest|;
    if taken > left then Err(LengthMismatch) else
    var (fields, end) :- ReadLines(rest, left - taken);
    Ok(([field] + fields, end))
  }

  function ReadSection(b: Bytes): Result<(seq<Field>, Bytes), Error> {
    var (len, rest) :- Read(b);
    if len > |rest| then Err(Truncated) else ReadLines(rest, len)
  }

  /** Everything up to the trailer. */
  function ReadRequest(b: Bytes): Result<(Request, Bytes), Error> {
    var (framing, b0) :- Read(b);
    if framing != REQUEST then Err(WrongFraming) else
    var (verb, b1) :- ReadBytes(b0);
    var (scheme, b2) :- ReadBytes(b1);
    var (authority, b3) :- ReadBytes(b2);
    var (path, b4) :- ReadBytes(b3);
    var (headers, b5) :- ReadSection(b4);
    var (body, b6) :- ReadBytes(b5);
    Ok((Request(verb, scheme, authority, path, headers, body), b6))
  }

  function ReadResponse(b: Bytes): Result<(Response, Bytes), Error> {
    var (framing, b0) :- Read(b);
    if framing != RESPONSE then Err(WrongFraming) else
    var (status, b1) :- Read(b0);
    if 100 <= status < 200 then Err(Informational) else
    var (headers, b2) :- ReadSection(b1);
    var (body, b3) :- ReadBytes(b2);
    Ok((Response(status, headers, body), b3))
  }

  /** A missing trailer counts as empty; one that is there must be well formed. */
  function WithTrailer<T>(core: Result<(T, Bytes), Error>): Result<T, Error> {
    var (message, rest) :- core;
    if rest == [] then Ok(message) else
    var _ :- ReadSection(rest);
    Ok(message)
  }

  function DecodedRequest(b: Bytes): Result<Request, Error> {
    WithTrailer(ReadRequest(b))
  }

  function DecodedResponse(b: Bytes): Result<Response, Error> {
    WithTrailer(ReadResponse(b))
  }

  // ---- There and back -------------------------------------------------------------

  lemma Assoc(a: Bytes, b: Bytes, c: Bytes)
    ensures a + (b + c) == a + b + c
  {
  }

  lemma BytesBack(b: Bytes, rest: Bytes)
    requires Prefixed(b).Ok?
    ensures ReadBytes(Prefixed(b).value + rest) == Ok((b, rest))
  {
    hide Encoded, Read;
    var len := Encoded(|b|).value;
    RoundTrip(|b|, b + rest);
    Assoc(len, b, rest);
    Cuts(b, rest);
  }

  lemma Cuts(b: Bytes, rest: Bytes)
    ensures (b + rest)[..|b|] == b && (b + rest)[|b|..] == rest
  {
  }

  lemma {:induction false} LinesCons(headers: seq<Field>)
    requires headers != [] && Lines(headers).Ok?
    ensures Line(headers[0]).Ok? && Lines(headers[1..]).Ok?
    ensures Lines(headers).value == Line(headers[0]).value + Lines(headers[1..]).value
  {
    var k := |headers| - 1;
    if k == 0 {
      assert headers[..0] == [] && headers[1..] == [];
      assert [] + Line(headers[0]).value == Line(headers[0]).value + [];
    } else {
      LinesCons(headers[..k]);
      assert headers[..k][1..] == headers[1..][..k - 1] && headers[1..][k - 1] == headers[k];
      Assoc(Line(headers[0]).value, Lines(headers[1..][..k - 1]).value, Line(headers[k]).value);
    }
  }

  lemma {:induction false} LinesBack(headers: seq<Field>, rest: Bytes)
    requires Lines(headers).Ok?
    ensures ReadLines(Lines(headers).value + rest, |Lines(headers).value|) == Ok((headers, rest))
    decreases |headers|
  {
    if headers == [] {
      assert [] + rest == rest;
    } else {
      LinesCons(headers);
      var f, tail := headers[0], Lines(headers[1..]).value;
      LineBack(f, tail + rest);
      Assoc(Line(f).value, tail, rest);
      LinesBack(headers[1..], rest);
      assert [f] + headers[1..] == headers;
    }
  }

  lemma LineBack(f: Field, rest: Bytes)
    requires Line(f).Ok?
    ensures |Line(f).value| >= 1 && ReadLine(Line(f).value + rest) == Ok((f, rest))
  {
    var name, value := Prefixed(f.0).value, Prefixed(f.1).value;
    Assoc(name, value, rest);
    TwoBack(name, value, f.0, f.1, rest);
  }

  lemma TwoBack(p: Bytes, q: Bytes, a: Bytes, b: Bytes, rest: Bytes)
    requires Prefixed(a) == Ok(p) && Prefixed(b) == Ok(q)
    ensures |p| >= 1 && ReadBytes(p + (q + rest)) == Ok((a, q + rest)) && ReadBytes(q + rest) == Ok((b, rest))
  {
    BytesBack(a, q + rest);
    BytesBack(b, rest);
  }

  lemma SectionBack(headers: seq<Field>, rest: Bytes)
    requires Section(headers).Ok?
    ensures ReadSection(Section(headers).value + rest) == Ok((headers, rest))
  {
    hide Encoded, Read, ReadLines, Lines;
    var lines := Lines(headers).value;
    RoundTrip(|lines|, lines + rest);
    var len := Encoded(|lines|).value;
    Assoc(len, lines, rest);
    LinesBack(headers, rest);
  }

  lemma ZeroIs(n: nat, rest: Bytes)
    requires n < 64
    ensures Read([n] + rest) == Ok((n, rest))
  {
    RoundTrip(n, rest);
    OneByte(n);
  }

  lemma RequestCore(req: Request, trailer: Bytes)
    requires RequestWith(req, trailer).Ok?
    ensures ReadRequest(RequestWith(req, trailer).value) == Ok((req, trailer))
  {
    hide Encoded, Prefixed, Section, Read, ReadBytes, ReadSection;
    var content := Prefixed(req.body).value + trailer;
    BytesBack(req.body, trailer);
    var headers := Section(req.headers).value + content;
    SectionBack(req.headers, content);
    var path := Prefixed(req.path).value + headers;
    BytesBack(req.path, headers);
    var authority := Prefixed(req.authority).value + path;
    BytesBack(req.authority, path);
    var scheme := Prefixed(req.scheme).value + authority;
    BytesBack(req.scheme, authority);
    BytesBack(req.verb, scheme);
    ZeroIs(REQUEST, Prefixed(req.verb).value + scheme);
  }

  lemma ResponseCore(res: Response, trailer: Bytes)
    requires ResponseWith(res, trailer).Ok? && !(100 <= res.status < 200)
    ensures ReadResponse(ResponseWith(res, trailer).value) == Ok((res, trailer))
  {
    hide Encoded, Prefixed, Section, Read, ReadBytes, ReadSection;
    var content := Prefixed(res.body).value + trailer;
    BytesBack(res.body, trailer);
    SectionBack(res.headers, content);
    RoundTrip(res.status, Section(res.headers).value + content);
    ZeroIs(RESPONSE, Encoded(res.status).value + (Section(res.headers).value + content));
  }

  lemma RequestTrailer(req: Request)
    requires RequestWith(req, []).Ok?
    ensures EncodedRequest(req) == Ok(RequestWith(req, []).value + TRAILER)
  {
    var content := Prefixed(req.body).value + [];
    var headers := Section(req.headers).value + content;
    var path := Prefixed(req.path).value + headers;
    var authority := Prefixed(req.authority).value + path;
    var scheme := Prefixed(req.scheme).value + authority;
    var verb := Prefixed(req.verb).value + scheme;
    assert content + TRAILER == Prefixed(req.body).value + TRAILER;
    Assoc(Section(req.headers).value, content, TRAILER);
    Assoc(Prefixed(req.path).value, headers, TRAILER);
    Assoc(Prefixed(req.authority).value, path, TRAILER);
    Assoc(Prefixed(req.scheme).value, authority, TRAILER);
    Assoc(Prefixed(req.verb).value, scheme, TRAILER);
    Assoc([REQUEST], verb, TRAILER);
  }

  lemma ResponseTrailer(res: Response)
    requires ResponseWith(res, []).Ok?
    ensures EncodedResponse(res) == Ok(ResponseWith(res, []).value + TRAILER)
  {
    var content := Prefixed(res.body).value + [];
    var headers := Section(res.headers).value + content;
    var status := Encoded(res.status).value + headers;
    assert content + TRAILER == Prefixed(res.body).value + TRAILER;
    Assoc(Section(res.headers).value, content, TRAILER);
    Assoc(Encoded(res.status).value, headers, TRAILER);
    Assoc([RESPONSE], status, TRAILER);
  }

  lemma TrailerIsRead()
    ensures ReadSection(TRAILER) == Ok(([], []))
  {
    ZeroIs(0, []);
    assert [0] + [] == TRAILER;
  }

  // ---- Extensions -----------------------------------------------------------------

  lemma BytesExtend(b: Bytes, x: Bytes)
    requires ReadBytes(b).Ok?
    ensures ReadBytes(b + x) == Ok((ReadBytes(b).value.0, ReadBytes(b).value.1 + x))
  {
    hide Read;
    ReadExtends(b, x);
    var (len, rest) := Read(b).value;
    assert (rest + x)[..len] == rest[..len] && (rest + x)[len..] == rest[len..] + x;
  }

  lemma LineExtends(b: Bytes, x: Bytes)
    requires ReadLine(b).Ok?
    ensures ReadLine(b + x) == Ok((ReadLine(b).value.0, ReadLine(b).value.1 + x))
  {
    BytesExtend(b, x);
    BytesExtend(ReadBytes(b).value.1, x);
  }

  lemma {:induction false} LinesExtend(b: Bytes, left: nat, x: Bytes)
    requires ReadLines(b, left).Ok?
    ensures ReadLines(b + x, left) == Ok((ReadLines(b, left).value.0, ReadLines(b, left).value.1 + x))
    decreases |b|
  {
    if left > 0 {
      LineExtends(b, x);
      var rest := ReadLine(b).value.1;
      LinesExtend(rest, left - (|b| - |rest|), x);
    }
  }

  lemma SectionExtends(b: Bytes, x: Bytes)
    requires ReadSection(b).Ok?
    ensures ReadSection(b + x) == Ok((ReadSection(b).value.0, ReadSection(b).value.1 + x))
  {
    hide Read, ReadLines;
    ReadExtends(b, x);
    var (len, rest) := Read(b).value;
    LinesExtend(rest, len, x);
  }

  lemma RequestExtends(b: Bytes, x: Bytes)
    requires ReadRequest(b).Ok?
    ensures ReadRequest(b + x) == Ok((ReadRequest(b).value.0, ReadRequest(b).value.1 + x))
  {
    hide Read, ReadBytes, ReadSection;
    ReadExtends(b, x);
    var b0 := Read(b).value.1;
    BytesExtend(b0, x);
    var b1 := ReadBytes(b0).value.1;
    BytesExtend(b1, x);
    var b2 := ReadBytes(b1).value.1;
    BytesExtend(b2, x);
    var b3 := ReadBytes(b2).value.1;
    BytesExtend(b3, x);
    var b4 := ReadBytes(b3).value.1;
    SectionExtends(b4, x);
    BytesExtend(ReadSection(b4).value.1, x);
  }

  lemma ResponseExtends(b: Bytes, x: Bytes)
    requires ReadResponse(b).Ok?
    ensures ReadResponse(b + x) == Ok((ReadResponse(b).value.0, ReadResponse(b).value.1 + x))
  {
    hide Read, ReadBytes, ReadSection;
    ReadExtends(b, x);
    var b0 := Read(b).value.1;
    ReadExtends(b0, x);
    var b1 := Read(b0).value.1;
    SectionExtends(b1, x);
    BytesExtend(ReadSection(b1).value.1, x);
  }

  // ---- Whole messages -------------------------------------------------------------

  /** A request decodes to itself, with or without its trailer byte, and cut anywhere
      earlier it is refused. */
  lemma RequestRoundTrip(req: Request, k: nat)
    requires EncodedRequest(req).Ok? && k <= |EncodedRequest(req).value|
    ensures var e := EncodedRequest(req).value;
            if k >= |e| - 1 then DecodedRequest(e[..k]) == Ok(req) else DecodedRequest(e[..k]).Err?
  {
    hide Encoded, Prefixed, Section, ReadRequest;
    RequestCore(req, TRAILER);
    RequestCore(req, []);
    RequestTrailer(req);
    RequestCut(EncodedRequest(req).value, RequestWith(req, []).value, req, k);
  }

  lemma RequestCut(e: Bytes, short: Bytes, req: Request, k: nat)
    requires e == short + TRAILER && k <= |e|
    requires ReadRequest(e) == Ok((req, TRAILER)) && ReadRequest(short) == Ok((req, []))
    ensures if k >= |e| - 1 then DecodedRequest(e[..k]) == Ok(req) else DecodedRequest(e[..k]).Err?
  {
    if k == |e| {
      assert e[..k] == e;
      TrailerIsRead();
    } else if k == |e| - 1 {
      assert e[..k] == short;
    } else if ReadRequest(e[..k]).Ok? {
      RequestExtends(e[..k], e[k..]);
      TooShort(e, k, ReadRequest(e[..k]).value.1);
    }
  }

  lemma TooShort(e: Bytes, k: nat, rest: Bytes)
    requires k < |e| - 1
    ensures e[..k] + e[k..] == e && rest + e[k..] != TRAILER
  {
    assert |rest + e[k..]| >= 2;
  }

  /** The same for a response; one with an informational status is encoded but never decoded. */
  lemma ResponseRoundTrip(res: Response, k: nat)
    requires EncodedResponse(res).Ok? && k <= |EncodedResponse(res).value|
    ensures var e := EncodedResponse(res).value;
            if 100 <= res.status < 200 then DecodedResponse(e[..k]).Err?
            else if k >= |e| - 1 then DecodedResponse(e[..k]) == Ok(res)
            else DecodedResponse(e[..k]).Err?
  {
    hide Prefixed, Section, Read, ReadBytes, ReadSection;
    var e, short := EncodedResponse(res).value, ResponseWith(res, []).value;
    ResponseTrailer(res);
    TrailerIsRead();
    assert e[..|e|] == e && e[..|e| - 1] == short;
    if 100 <= res.status < 200 {
      if ReadResponse(e[..k]).Ok? {
        ResponseExtends(e[..k], e[k..]);
        assert e[..k] + e[k..] == e;
        InformationalRefused(res);
      }
    } else {
      ResponseCore(res, TRAILER);
      ResponseCore(res, []);
      if k < |e| - 1 && ReadResponse(e[..k]).Ok? {
        ResponseExtends(e[..k], e[k..]);
        TooShort(e, k, ReadResponse(e[..k]).value.1);
      }
    }
  }

  lemma InformationalRefused(res: Response)
    requires EncodedResponse(res).Ok? && 100 <= res.status < 200
    ensures ReadResponse(EncodedResponse(res).value) == Err(Informational)
  {
    var rest := Section(res.headers).value + (Prefixed(res.body).value + TRAILER);
    RoundTrip(res.status, rest);
    ZeroIs(RESPONSE, Encoded(res.status).value + rest);
  }

  // ---- The code -------------------------------------------------------------------

  /** `out.set(p, offset)`. */
  method Set(out: array<byte>, p: Bytes, offset: nat)
    requires offset + |p| <= out.Length
    modifies out
    ensures out[..offset] == old(out[..offset]) && out[offset..offset + |p|] == p
    ensures out[offset + |p|..] == old(out[offset + |p|..])
  {
    for i := 0 to |p|
      invariant out[..offset] == old(out[..offset]) && out[offset..offset + i] == p[..i]
      invariant out[offset + |p|..] == old(out[offset + |p|..])
    {
      out[offset + i] := p[i];
      assert out[offset..offset + i + 1] == out[offset..offset + i] + [p[i]];
    }
  }

  function Flat(parts: seq<Bytes>): Bytes {
    if parts == [] then [] else Flat(parts[..|parts| - 1]) + parts[|parts| - 1]
  }

  /** Lays the parts one after the other into a buffer of exactly their length. */
  method Assemble(parts: seq<Bytes>) returns (bytes: Bytes)
    ensures bytes == Flat(parts)
  {
    var total := 0;
    for i := 0 to |parts|
      invariant total == |Flat(parts[..i])|
    {
      assert parts[..i + 1][..i] == parts[..i];
      total := total + |parts[i]|;
    }
    assert parts[..|parts|] == parts;
    var out := new byte[total](_ => 0);
    var offset := 0;
    for i := 0 to |parts|
      invariant offset == |Flat(parts[..i])| <= total && out[..offset] == Flat(parts[..i])
    {
      assert parts[..i + 1][..i] == parts[..i];
      FlatGrows(parts, i + 1);
      Set(out, parts[i], offset);
      offset := offset + |parts[i]|;
      assert out[..offset] == out[..offset - |parts[i]|] + out[offset - |parts[i]|..offset];
    }
    return out[..];
  }

  lemma {:induction false} FlatGrows(parts: seq<Bytes>, i: nat)
    requires i <= |parts|
    ensures |Flat(parts[..i])| <= |Flat(parts)|
    decreases |parts|
  {
    if i < |parts| {
      assert parts[..|parts| - 1][..i] == parts[..i];
      FlatGrows(parts[..|parts| - 1], i);
    } else {
      assert parts[..i] == parts;
    }
  }

  method EncodeVarintBytes(bytes: Bytes) returns (r: Result<Bytes, Error>)
    ensures r == Prefixed(bytes)
  {
    var lenBytes :- EncodeVarint(|bytes|);
    var out := new byte[|lenBytes| + |bytes|](_ => 0);
    Set(out, lenBytes, 0);
    Set(out, bytes, |lenBytes|);
    assert out[..] == out[..|lenBytes|] + out[|lenBytes|..|lenBytes| + |bytes|];
    return Ok(out[..]);
  }

  method EncodeHeaderSection(headers: seq<Field>) returns (r: Result<Bytes, Error>)
    ensures r == Section(headers)
  {
    var lines: seq<Bytes> := [];
    for i := 0 to |headers|
      invariant Lines(headers[..i]) == Ok(Flat(lines))
    {
      assert headers[..i + 1][..i] == headers[..i];
      LinesStop(headers, i + 1);
      var nameBytes :- EncodeVarintBytes(headers[i].0);
      var valueBytes :- EncodeVarintBytes(headers[i].1);
      lines := lines + [nameBytes + valueBytes];
      assert lines[..|lines| - 1] + [nameBytes + valueBytes] == lines;
    }
    assert headers[..|headers|] == headers;
    var section := Assemble(lines);
    var lenPrefix :- EncodeVarint(|section|);
    r := Ok(lenPrefix + section);
  }

  lemma {:induction false} LinesStop(headers: seq<Field>, i: nat)
    requires i <= |headers|
    ensures Lines(headers[..i]).Err? ==> Lines(headers) == Lines(headers[..i])
    decreases |headers|
  {
    if i < |headers| {
      assert headers[..|headers| - 1][..i] == headers[..i];
      LinesStop(headers[..|headers| - 1], i);
    } else {
      assert headers[..i] == headers;
    }
  }

  method EncodeBhttpRequest(req: Request) returns (r: Result<Bytes, Error>)
    ensures r == EncodedRequest(req)
  {
    hide Prefixed, Section, Flat;
    var framing := EncodeVarint(REQUEST);
    var verb :- EncodeVarintBytes(req.verb);
    var scheme :- EncodeVarintBytes(req.scheme);
    var authority :- EncodeVarintBytes(req.authority);
    var path :- EncodeVarintBytes(req.path);
    var headers :- EncodeHeaderSection(req.headers);
    var content :- EncodeVarintBytes(req.body);
    var trailer := EncodeVarint(0);
    Varint.OneByte(0);
    var parts := [framing.value, verb, scheme, authority, path, headers, content, trailer.value];
    RequestParts(parts);
    var bytes := Assemble(parts);
    return Ok(bytes);
  }

  lemma {:induction false} FlatFrom(parts: seq<Bytes>, i: nat)
    requires i < |parts|
    ensures Flat(parts[i..]) == parts[i] + Flat(parts[i + 1..])
    decreases |parts| - i, |parts|
  {
    var k := |parts| - 1;
    if i == k {
      assert parts[i..][..0] == [] && parts[i + 1..] == [];
      assert parts[i] + [] == [] + parts[i];
    } else {
      FlatFrom(parts[..k], i);
      assert parts[i..][..k - i] == parts[..k][i..] && parts[i + 1..][..k - i - 1] == parts[..k][i + 1..];
      Assoc(parts[i], Flat(parts[..k][i + 1..]), parts[k]);
    }
  }

  lemma RequestParts(p: seq<Bytes>)
    requires |p| == 8
    ensures Flat(p) == p[0] + (p[1] + (p[2] + (p[3] + (p[4] + (p[5] + (p[6] + p[7]))))))
  {
    assert p[0..] == p && p[8..] == [];
    FlatFrom(p, 0);
    FlatFrom(p, 1);
    FlatFrom(p, 2);
    FlatFrom(p, 3);
    FlatFrom(p, 4);
    FlatFrom(p, 5);
    FlatFrom(p, 6);
    FlatFrom(p, 7);
    assert p[7] + [] == p[7];
  }

  lemma ResponseParts(p: seq<Bytes>)
    requires |p| == 5
    ensures Flat(p) == p[0] + (p[1] + (p[2] + (p[3] + p[4])))
  {
    assert p[0..] == p && p[5..] == [];
    FlatFrom(p, 0);
    FlatFrom(p, 1);
    FlatFrom(p, 2);
    FlatFrom(p, 3);
    FlatFrom(p, 4);
    assert p[4] + [] == p[4];
  }

  method EncodeBhttpResponse(res: Response) returns (r: Result<Bytes, Error>)
    ensures r == EncodedResponse(res)
  {
    hide Prefixed, Section, Flat;
    var framing := EncodeVarint(RESPONSE);
    var status :- EncodeVarint(res.status);
    var headers :- EncodeHeaderSection(res.headers);
    var content :- EncodeVarintBytes(res.body);
    var trailer := EncodeVarint(0);
    Varint.OneByte(0);
    Varint.OneByte(1);
    var parts := [framing.value, status, headers, content, trailer.value];
    ResponseParts(parts);
    var bytes := Assemble(parts);
    return Ok(bytes);
  }

  method DecodeVarintBytes(bytes: Bytes, offset: nat) returns (r: Result<(Bytes, nat), Error>)
    ensures ReadsAs(bytes, offset, r, ReadBytes(From(bytes, offset)))
  {
    var len :- DecodeVarint(bytes, offset);
    var start := offset + len.1;
    var end := start + len.0;
    if end > |bytes| { return Err(Truncated); }
    assert bytes[start..end] == bytes[start..][..len.0] && bytes[end..] == bytes[start..][len.0..];
    return Ok((bytes[start..end], len.1 + len.0));
  }

  method DecodeLine(bytes: Bytes, pos: nat) returns (r: Result<(Field, nat), Error>)
    ensures ReadsAs(bytes, pos, r, ReadLine(From(bytes, pos)))
  {
    hide Read, ReadBytes;
    var name :- DecodeVarintBytes(bytes, pos);
    var value :- DecodeVarintBytes(bytes, pos + name.1);
    return Ok(((name.0, value.0), name.1 + value.1));
  }

  method DecodeHeaderSection(bytes: Bytes, offset: nat) returns (r: Result<(seq<Field>, nat), Error>)
    ensures ReadsAs(bytes, offset, r, ReadSection(From(bytes, offset)))
  {
    var len :- DecodeVarint(bytes, offset);
    var sectionStart := offset + len.1;
    if sectionStart + len.0 > |bytes| { return Err(Truncated); }
    var headers :- DecodeLines(bytes, sectionStart, len.0);
    return Ok((headers, len.1 + len.0));
  }

  /** The loop over one section. It ends on every input: each turn reads at least a byte. */
  method DecodeLines(bytes: Bytes, sectionStart: nat, len: nat) returns (r: Result<seq<Field>, Error>)
    requires sectionStart + len <= |bytes|
    ensures match ReadLines(bytes[sectionStart..], len)
            case Err(e) => r == Err(e)
            case Ok((headers, rest)) => r == Ok(headers) && rest == bytes[sectionStart + len..]
  {
    hide Read, ReadBytes, ReadLine, ReadLines, Continued;
    var sectionEnd := sectionStart + len;
    ghost var parse := ReadLines(bytes[sectionStart..], len);
    var headers: seq<Field> := [];
    var pos := sectionStart;
    EmptyStart(bytes[sectionStart..], len);
    while pos < sectionEnd
      invariant sectionStart <= pos <= |bytes|
      invariant parse == Continued(headers, bytes[pos..], sectionEnd - pos)
      decreases |bytes| - pos
    {
      var line := DecodeLine(bytes, pos);
      ContinuedStep(headers, bytes[pos..], sectionEnd - pos);
      if line.Err? { return Err(line.error); }
      headers := headers + [line.value.0];
      pos := pos + line.value.1;
    }
    ContinuedEnds(headers, bytes[pos..], sectionEnd - pos);
    if pos != sectionEnd { return Err(LengthMismatch); }
    return Ok(headers);
  }

  lemma ContinuedEnds(headers: seq<Field>, b: Bytes, left: int)
    requires left <= 0
    ensures Continued(headers, b, left) == if left < 0 then Err(LengthMismatch) else Ok((headers, b))
  {
    assert headers + [] == headers;
  }

  lemma EmptyStart(b: Bytes, left: nat)
    ensures Continued([], b, left) == ReadLines(b, left)
  {
    if ReadLines(b, left).Ok? { assert [] + ReadLines(b, left).value.0 == ReadLines(b, left).value.0; }
  }

  /** The fields read so far and the parse of the rest; reading past the end is a mismatch. */
  function Continued(headers: seq<Field>, b: Bytes, left: int): Result<(seq<Field>, Bytes), Error> {
    if left < 0 then Err(LengthMismatch) else
    var (fields, end) :- ReadLines(b, left);
    Ok((headers + fields, end))
  }

  lemma ContinuedStep(headers: seq<Field>, b: Bytes, left: nat)
    requires left > 0
    ensures ReadLine(b).Err? ==> Continued(headers, b, left) == Err(ReadLine(b).error)
    ensures ReadLine(b).Ok? ==>
              var (f, rest) := ReadLine(b).value;
              Continued(headers, b, left) == Continued(headers + [f], rest, left - (|b| - |rest|))
  {
    if ReadLine(b).Ok? {
      var (f, rest) := ReadLine(b).value;
      OneMore(headers, f, rest, left - (|b| - |rest|));
    }
  }

  lemma OneMore(headers: seq<Field>, f: Field, rest: Bytes, more: int)
    ensures Continued(headers + [f], rest, more)
         == if more < 0 then Err(LengthMismatch) else
            match ReadLines(rest, more)
            case Err(e) => Err(e)
            case Ok((fields, end)) => Ok((headers + ([f] + fields), end))
  {
    if more >= 0 && ReadLines(rest, more).Ok? {
      var fields := ReadLines(rest, more).value.0;
      assert headers + ([f] + fields) == headers + [f] + fields;
    }
  }

  method DecodeBhttpRequest(bytes: Bytes) returns (r: Result<Request, Error>)
    ensures r == DecodedRequest(bytes)
  {
    hide Read, ReadBytes, ReadSection;
    assert bytes[0..] == bytes;
    var offset := 0;
    var framing :- DecodeVarint(bytes, offset);
    offset := offset + framing.1;
    if framing.0 != REQUEST { return Err(WrongFraming); }
    var verb :- DecodeVarintBytes(bytes, offset);
    offset := offset + verb.1;
    var scheme :- DecodeVarintBytes(bytes, offset);
    offset := offset + scheme.1;
    var authority :- DecodeVarintBytes(bytes, offset);
    offset := offset + authority.1;
    var path :- DecodeVarintBytes(bytes, offset);
    offset := offset + path.1;
    var headers :- DecodeHeaderSection(bytes, offset);
    offset := offset + headers.1;
    var content :- DecodeVarintBytes(bytes, offset);
    offset := offset + content.1;
    if offset < |bytes| {
      var _ :- DecodeHeaderSection(bytes, offset);
    }
    return Ok(Request(verb.0, scheme.0, authority.0, path.0, headers.0, content.0));
  }

  method DecodeBhttpResponse(bytes: Bytes) returns (r: Result<Response, Error>)
    ensures r == DecodedResponse(bytes)
  {
    hide Read, ReadBytes, ReadSection;
    assert bytes[0..] == bytes;
    var offset := 0;
    var framing :- DecodeVarint(bytes, offset);
    offset := offset + framing.1;
    if framing.0 != RESPONSE { return Err(WrongFraming); }
    var status :- DecodeVarint(bytes, offset);
    offset := offset + status.1;
    if 100 <= status.0 < 200 { return Err(Informational); }
    var headers :- DecodeHeaderSection(bytes, offset);
    offset := offset + headers.1;
    var content :- DecodeVarintBytes(bytes, offset);
    offset := offset + content.1;
    if offset < |bytes| {
      var _ :- DecodeHeaderSection(bytes, offset);
    }
    return Ok(Response(status.0, headers.0, content.0));
  }
}
