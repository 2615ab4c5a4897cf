/**
 Finding the server name in a TLS ClientHello that may be cut anywhere.

 The walk trusts nothing: it is an offset that moves over untrusted bytes.  Its
 partner is the message format itself (section 4.1.2 of RFC 8446, section 3 of
 RFC 6066), written as an encoder.
 */
module ClientHello {
  import opened Bytes

  /** Bytes before the session id: record header, handshake header, version and
      random. */
  const HEAD := 43

  /** Past a field with a one-byte length, or with a two-byte length. */
  function PastShort(data: seq<Byte>, pos: nat): Option<nat> {
    if pos >= |data| then None else Some(pos + 1 + data[pos])
  }

  function PastLong(data: seq<Byte>, pos: nat): Option<nat> {
    if pos + 2 > |data| then None else Some(pos + 2 + Word(data[pos], data[pos + 1]))
  }

  /** A piece of the bytes. */
  datatype Span = Span(at: nat, size: nat)

  /** What the extension at `pos` says: a usable server name, or nothing. */
  function NameAt(data: seq<Byte>, pos: nat, kind: nat, size: nat): (name: Option<Span>)
    requires pos + size <= |data|
    ensures name.Some? ==> name.value.at + name.value.size <= |data|
  {
    if kind == 0 && size > 5 && data[pos + 2] == 0 && pos + 5 + Word(data[pos + 3], data[pos + 4]) <= |data| then
      Some(Span(pos + 5, Word(data[pos + 3], data[pos + 4])))
    else
      None
  }

  /** The first usable name in the extension list from `pos` on. */
  function Walk(data: seq<Byte>, pos: nat, end: nat): (name: Option<Span>)
    ensures name.Some? ==> name.value.at + name.value.size <= |data|
    decreases |data| - pos
  {
    if pos + 4 > end || pos + 4 > |data| then
      None
    else
      var kind := Word(data[pos], data[pos + 1]);
      var size := Word(data[pos + 2], data[pos + 3]);
      if pos + 4 + size > |data| then
        None
      else
        var name := NameAt(data, pos + 4, kind, size);
        if name.Some? then name else Walk(data, pos + 4 + size, end)
  }

  /** Where the extension list begins, if the bytes reach that far. */
  function ExtensionsAt(data: seq<Byte>): (at: Option<nat>)
    ensures at.Some? ==> at.value + 2 <= |data|
  {
    if |data| < 6 || data[0] != 0x16 || data[5] != 1 then
      None
    else
      var suites := PastShort(data, HEAD);
      if suites.None? then None else
      var compression := PastLong(data, suites.value);
      if compression.None? then None else
      var extensions := PastShort(data, compression.value);
      if extensions.None? || extensions.value + 2 > |data| then None else extensions
  }

  /** The extension list, as far as its size says it goes. */
  function ListIn(data: seq<Byte>): Option<Span> {
    var at := ExtensionsAt(data);
    if at.None? then None else Some(Span(at.value + 2, Word(data[at.value], data[at.value + 1])))
  }

  /** The place of the name, before its bytes are taken as text. */
  function RawName(data: seq<Byte>): (name: Option<Span>)
    ensures name.Some? ==> name.value.at + name.value.size <= |data|
  {
    NameIn(data, ListIn(data))
  }

  function NameIn(data: seq<Byte>, list: Option<Span>): (name: Option<Span>)
    ensures name.Some? ==> name.value.at + name.value.size <= |data|
  {
    if list.None? then None else Walk(data, list.value.at, list.value.at + list.value.size)
  }

  function AsText(data: seq<Byte>, name: Option<Span>, utf8: seq<Byte> -> bool): Option<seq<Byte>>
    requires name.Some? ==> name.value.at + name.value.size <= |data|
  {
    if name.None? then
      None
    else
      var bytes := data[name.value.at..name.value.at + name.value.size];
      if utf8(bytes) then Some(bytes) else None
  }

  function Sni(data: seq<Byte>, utf8: seq<Byte> -> bool): Option<seq<Byte>> {
    AsText(data, RawName(data), utf8)
  }

  predicate OccursAt(data: seq<Byte>, p: nat, piece: seq<Byte>) {
    p + |piece| <= |data| && data[p..p + |piece|] == piece
  }

  /** The loop of tls_sni: the name of the first usable server_name extension. */
  method FirstName(data: seq<Byte>, start: nat, end: nat) returns (name: Option<Span>)
    ensures name == Walk(data, start, end)
  {
    var pos := start;
    while pos + 4 <= end && pos + 4 <= |data|
      invariant Walk(data, pos, end) == Walk(data, start, end)
      decreases |data| - pos
    {
      var etype := Word(data[pos], data[pos + 1]);
      var elen := Word(data[pos + 2], data[pos + 3]);
      pos := pos + 4;
      if pos + elen > |data| {
        return None;
      }
      if etype == 0 && elen > 5 && data[pos + 2] == 0 {
        var nameLen := Word(data[pos + 3], data[pos + 4]);
        if pos + 5 + nameLen <= |data| {
          return Some(Span(pos + 5, nameLen));
        }
      }
      pos := pos + elen;
    }
    return None;
  }

  /** The part of tls_sni before the loop. */
  method FindList(data: seq<Byte>) returns (list: Option<Span>)
    ensures list == ListIn(data)
  {
    if |data| < 5 || data[0] != 0x16 {
      return None;
    }
    var pos := 5;
    if pos >= |data| {
      return None;
    }
    if data[pos] != 0x01 {
      return None;
    }
    pos := pos + 4;
    pos := pos + 2 + 32;
    if pos >= |data| {
      return None;
    }
    var sessLen := data[pos];
    pos := pos + 1 + sessLen;
    if pos + 2 > |data| {
      return None;
    }
    var suitesLen := Word(data[pos], data[pos + 1]);
    pos := pos + 2 + suitesLen;
    if pos >= |data| {
      return None;
    }
    var compLen := data[pos];
    pos := pos + 1 + compLen;
    if pos + 2 > |data| {
      return None;
    }
    var extLen := Word(data[pos], data[pos + 1]);
    pos := pos + 2;
    return Some(Span(pos, extLen));
  }

  /** tls_sni.  It stays in bounds and ends for every byte string, and whatever it
      returns is a piece of the input that is valid text. */
  method TlsSni(data: seq<Byte>, utf8: seq<Byte> -> bool) returns (name: Option<seq<Byte>>)
    ensures name == Sni(data, utf8)
    ensures name.Some? ==> utf8(name.value) && exists p :: OccursAt(data, p, name.value)
  {
    var list := FindList(data);
    if list.None? {
      return None;
    }
    var span := FirstName(data, list.value.at, list.value.at + list.value.size);
    if span.None? {
      return None;
    }
    var bytes := data[span.value.at..span.value.at + span.value.size];
    assert OccursAt(data, span.value.at, bytes);
    return if utf8(bytes) then Some(bytes) else None;
  }

  // ------------------------------------------------------------------- the format

  /** A vector of the TLS presentation language: its size, then its bytes. */
  datatype Vector = Vector(size: seq<Byte>, body: seq<Byte>) {
    predicate Short() {
      |size| == 1 && size[0] == |body|
    }

    predicate Long() {
      |size| == 2 && Word(size[0], size[1]) == |body|
    }

    function Bytes(): seq<Byte> {
      size + body
    }
  }

  datatype Extension = Extension(kind: seq<Byte>, data: Vector) {
    predicate Valid() {
      |kind| == 2 && data.Long()
    }

    /** Not a server_name extension that starts with a host name. */
    predicate Skipped()
      requires Valid()
    {
      Word(kind[0], kind[1]) != 0 || |data.body| <= 5 || data.body[2] != 0
    }

    /** A server_name extension: the size of its list, a host name, then any further
        entries. */
    predicate Names(list: seq<Byte>, host: Vector, more: seq<Byte>)
      requires Valid()
    {
      && Word(kind[0], kind[1]) == 0 && |list| == 2 && host.Long() && host.body + more != []
      && data.body == list + [0] + host.Bytes() + more
    }

    function Bytes(): seq<Byte> {
      kind + data.Bytes()
    }
  }

  predicate AllSkipped(es: seq<Extension>) {
    es == [] || (es[0].Valid() && es[0].Skipped() && AllSkipped(es[1..]))
  }

  function ListBytes(es: seq<Extension>): seq<Byte> {
    if es == [] then [] else es[0].Bytes() + ListBytes(es[1..])
  }

  /** A ClientHello in its record: everything up to the session id, the fields the
      walk passes, and the extension list. */
  datatype Hello = Hello(head: seq<Byte>, sessionId: Vector, suites: Vector, compression: Vector, extensions: Vector) {
    predicate Valid() {
      && |head| == HEAD && head[0] == 0x16 && head[5] == 1
      && sessionId.Short() && suites.Long() && compression.Short() && extensions.Long()
    }

    function Encode(): seq<Byte> {
      head + (sessionId.Bytes() + (suites.Bytes() + (compression.Bytes() + extensions.Bytes())))
    }

    /** Where the extension list begins. */
    function ListStart(): nat {
      HEAD + 1 + |sessionId.body| + 2 + |suites.body| + 1 + |compression.body| + 2
    }
  }

  // ------------------------------------------------------- cut anywhere, and longer

  /** From `pos` on, the whole continues with `rest`. */
  ghost predicate ContinuesWith(whole: seq<Byte>, pos: nat, rest: seq<Byte>) {
    pos + |rest| <= |whole| && forall i :: 0 <= i < |rest| ==> rest[i] == whole[pos + i]
  }

  lemma After(whole: seq<Byte>, pos: nat, first: seq<Byte>, rest: seq<Byte>)
    requires ContinuesWith(whole, pos, first + rest)
    ensures ContinuesWith(whole, pos, first) && ContinuesWith(whole, pos + |first|, rest)
  {
    assert forall i :: 0 <= i < |first| ==> first[i] == (first + rest)[i];
    assert forall i :: 0 <= i < |rest| ==> rest[i] == (first + rest)[|first| + i];
  }

  lemma PassShort(data: seq<Byte>, whole: seq<Byte>, pos: nat, v: Vector, rest: seq<Byte>)
    requires data <= whole && v.Short() && ContinuesWith(whole, pos, v.Bytes() + rest)
    ensures PastShort(data, pos) == if pos >= |data| then None else Some(pos + 1 + |v.body|)
    ensures ContinuesWith(whole, pos + 1 + |v.body|, rest)
  {
    After(whole, pos, v.Bytes(), rest);
    After(whole, pos, v.size, v.body);
    assert v.size[0] == whole[pos];
  }

  lemma PassLong(data: seq<Byte>, whole: seq<Byte>, pos: nat, v: Vector, rest: seq<Byte>)
    requires data <= whole && v.Long() && ContinuesWith(whole, pos, v.Bytes() + rest)
    ensures PastLong(data, pos) == if pos + 2 > |data| then None else Some(pos + 2 + |v.body|)
    ensures ContinuesWith(whole, pos + 2 + |v.body|, rest)
  {
    After(whole, pos, v.Bytes(), rest);
    After(whole, pos, v.size, v.body);
    assert v.size[0] == whole[pos] && v.size[1] == whole[pos + 1];
  }

  lemma PassHead(whole: seq<Byte>, head: seq<Byte>, body: seq<Byte>)
    requires |head| == HEAD && ContinuesWith(whole, 0, head + body)
    ensures |whole| >= HEAD && whole[0] == head[0] && whole[5] == head[5] && ContinuesWith(whole, HEAD, body)
  {
    After(whole, 0, head, body);
    assert head[0] == whole[0] && head[5] == whole[5];
  }

  /** Session id, suites and compression are passed whatever they hold, if the
      bytes reach the end of the size of the extension list, and only then. */
  lemma PassFields(
    data: seq<Byte>, whole: seq<Byte>, sessionId: Vector, suites: Vector, compression: Vector, rest: seq<Byte>)
    requires sessionId.Short() && suites.Long() && compression.Short()
    requires data <= whole && |whole| >= 6 && whole[0] == 0x16 && whole[5] == 1
    requires ContinuesWith(whole, HEAD, sessionId.Bytes() + (suites.Bytes() + (compression.Bytes() + rest)))
    ensures var at := HEAD + 1 + |sessionId.body| + 2 + |suites.body| + 1 + |compression.body|;
            && ContinuesWith(whole, at, rest)
            && ExtensionsAt(data) == if |data| >= at + 2 then Some(at) else None
  {
    var p1 := HEAD + 1 + |sessionId.body|;
    PassShort(data, whole, HEAD, sessionId, suites.Bytes() + (compression.Bytes() + rest));
    PassLong(data, whole, p1, suites, compression.Bytes() + rest);
    PassShort(data, whole, p1 + 2 + |suites.body|, compression, rest);
  }

  lemma ListHeader(data: seq<Byte>, whole: seq<Byte>, at: nat, extensions: Vector)
    requires data <= whole && extensions.Long() && ContinuesWith(whole, at, extensions.Bytes())
    ensures ContinuesWith(whole, at + 2, extensions.body)
    ensures |data| >= at + 2 ==> Word(data[at], data[at + 1]) == |extensions.body|
  {
    After(whole, at, extensions.size, extensions.body);
    assert extensions.size[0] == whole[at] && extensions.size[1] == whole[at + 1];
  }

  /** The whole header: the list is found exactly when the bytes reach its start. */
  lemma ReachesList(data: seq<Byte>, whole: seq<Byte>, h: Hello)
    requires h.Valid() && data <= whole && ContinuesWith(whole, 0, h.Encode())
    ensures ContinuesWith(whole, h.ListStart(), h.extensions.body)
    ensures ListIn(data) == if |data| < h.ListStart() then None
                            else Some(Span(h.ListStart(), |h.extensions.body|))
  {
    var fields := h.sessionId.Bytes() + (h.suites.Bytes() + (h.compression.Bytes() + h.extensions.Bytes()));
    PassHead(whole, h.head, fields);
    PassFields(data, whole, h.sessionId, h.suites, h.compression, h.extensions.Bytes());
    ListHeader(data, whole, h.ListStart() - 2, h.extensions);
  }

  lemma ExtensionHeader(data: seq<Byte>, whole: seq<Byte>, pos: nat, e: Extension, rest: seq<Byte>)
    requires data <= whole && e.Valid() && ContinuesWith(whole, pos, e.Bytes() + rest)
    ensures ContinuesWith(whole, pos + 4, e.data.body) && ContinuesWith(whole, pos + 4 + |e.data.body|, rest)
    ensures pos + 4 <= |data|
            ==> && Word(data[pos], data[pos + 1]) == Word(e.kind[0], e.kind[1])
                && Word(data[pos + 2], data[pos + 3]) == |e.data.body|
  {
    After(whole, pos, e.Bytes(), rest);
    After(whole, pos, e.kind, e.data.Bytes());
    After(whole, pos + 2, e.data.size, e.data.body);
    assert e.kind[0] == whole[pos] && e.kind[1] == whole[pos + 1];
    assert e.data.size[0] == whole[pos + 2 + 0] && e.data.size[1] == whole[pos + 2 + 1];
  }

  lemma WalkPasses(data: seq<Byte>, pos: nat, end: nat, next: nat)
    requires pos + 4 <= next <= end
    requires pos + 4 <= |data|
             ==> && next == pos + 4 + Word(data[pos + 2], data[pos + 3])
                 && (next <= |data| ==> NameAt(data, pos + 4, Word(data[pos], data[pos + 1]), next - pos - 4) == None)
    ensures Walk(data, pos, end) == if next <= |data| then Walk(data, next, end) else None
  {
  }

  /** An extension that is not the host name is passed over, or ends the walk when
      the bytes are cut inside it. */
  lemma PassExtension(data: seq<Byte>, whole: seq<Byte>, pos: nat, end: nat, e: Extension, rest: seq<Byte>)
    requires data <= whole && e.Valid() && e.Skipped() && ContinuesWith(whole, pos, e.Bytes() + rest)
    requires pos + |e.Bytes()| <= end
    ensures ContinuesWith(whole, pos + |e.Bytes()|, rest)
    ensures Walk(data, pos, end)
         == if pos + |e.Bytes()| <= |data| then Walk(data, pos + |e.Bytes()|, end) else None
  {
    ExtensionHeader(data, whole, pos, e, rest);
    assert |e.Bytes()| == 4 + |e.data.body|;
    if pos + 4 + |e.data.body| <= |data| && |e.data.body| > 5 {
      assert e.data.body[2] == whole[pos + 4 + 2];
    }
    WalkPasses(data, pos, end, pos + |e.Bytes()|);
  }

  lemma {:induction false} PassList(
    data: seq<Byte>, whole: seq<Byte>, pos: nat, end: nat, es: seq<Extension>, rest: seq<Byte>)
    requires data <= whole && AllSkipped(es) && ContinuesWith(whole, pos, ListBytes(es) + rest)
    requires pos + |ListBytes(es)| <= end
    ensures ContinuesWith(whole, pos + |ListBytes(es)|, rest)
    ensures Walk(data, pos, end)
         == if es == [] || pos + |ListBytes(es)| <= |data| then Walk(data, pos + |ListBytes(es)|, end) else None
    decreases |es|
  {
    if es == [] {
      assert ListBytes(es) + rest == rest;
    } else {
      var first, others := es[0].Bytes(), ListBytes(es[1..]);
      assert ListBytes(es) == first + others;
      Associate(first, others, rest);
      PassExtension(data, whole, pos, end, es[0], others + rest);
      PassList(data, whole, pos + |first|, end, es[1..], rest);
    }
  }

  /** The host name is read once its whole extension has arrived, and not
      before. */
  lemma ReadName(
    data: seq<Byte>, whole: seq<Byte>, pos: nat, end: nat, e: Extension, list: seq<Byte>, host: Vector,
    more: seq<Byte>, rest: seq<Byte>)
    requires data <= whole && e.Valid() && e.Names(list, host, more) && ContinuesWith(whole, pos, e.Bytes() + rest)
    requires pos + |e.Bytes()| <= end
    ensures Walk(data, pos, end) == if pos + |e.Bytes()| <= |data| then Some(Span(pos + 9, |host.body|)) else None
    ensures pos + |e.Bytes()| <= |data| ==> OccursAt(data, pos + 9, host.body)
  {
    ExtensionHeader(data, whole, pos, e, rest);
    var at := pos + 4;
    assert |e.Bytes()| == 4 + |e.data.body|;
    if at + |e.data.body| <= |data| {
      assert ContinuesWith(data, at, e.data.body);
      NameInBody(data, at, e.data.body, list, host, more);
    }
  }

  lemma NameInBody(data: seq<Byte>, at: nat, body: seq<Byte>, list: seq<Byte>, host: Vector, more: seq<Byte>)
    requires |list| == 2 && host.Long() && host.body + more != [] && body == list + [0] + host.Bytes() + more
    requires ContinuesWith(data, at, body)
    ensures NameAt(data, at, 0, |body|) == Some(Span(at + 5, |host.body|)) && OccursAt(data, at + 5, host.body)
  {
    var flag: seq<Byte> := [0];
    After(data, at, list + flag + host.Bytes(), more);
    After(data, at, list + flag, host.Bytes());
    After(data, at, list, flag);
    After(data, at + 3, host.size, host.body);
    assert flag[0] == data[at + 2 + 0];
    assert host.size[0] == data[at + 3 + 0] && host.size[1] == data[at + 3 + 1];
    assert data[at + 5..at + 5 + |host.body|] == host.body;
  }

  lemma WalkReads(data: seq<Byte>, pos: nat, end: nat, size: nat, n: nat)
    requires pos + 4 <= end && pos + 4 + size <= |data| && size > 5 && data[pos + 6] == 0
    requires Word(data[pos], data[pos + 1]) == 0 && Word(data[pos + 2], data[pos + 3]) == size
    requires Word(data[pos + 7], data[pos + 8]) == n
    ensures Walk(data, pos, end)
         == if pos + 9 + n <= |data| then Some(Span(pos + 9, n)) else Walk(data, pos + 4 + size, end)
  {
    assert data[pos + 4 + 2] == data[pos + 6];
    assert data[pos + 4 + 3] == data[pos + 7] && data[pos + 4 + 4] == data[pos + 8];
  }

  /** What `n` bytes after the first five of a body are, if they run on behind it. */
  lemma BytesFrom(data: seq<Byte>, at: nat, body: seq<Byte>, n: nat)
    requires ContinuesWith(data, at, body) && |body| > 5 && at + 5 + n <= |data|
    ensures data[at + 5..at + 5 + n]
         == if 5 + n <= |body| then body[5..5 + n] else body[5..] + data[at + |body|..at + 5 + n]
  {
    var tail := data[at + 5..at + 5 + n];
    assert forall i :: 0 <= i < n && 5 + i < |body| ==> tail[i] == body[5 + i];
    if 5 + n <= |body| {
      assert tail == body[5..5 + n];
    } else {
      assert tail == body[5..] + data[at + |body|..at + 5 + n];
    }
  }

  lemma AnyNameWalk(data: seq<Byte>, pos: nat, end: nat, e: Extension, n: nat)
    requires e.Valid() && !e.Skipped() && ContinuesWith(data, pos, e.Bytes()) && pos + |e.Bytes()| <= end
    requires n == Word(e.data.body[3], e.data.body[4])
    ensures ContinuesWith(data, pos + 4, e.data.body)
    ensures Walk(data, pos, end)
         == if pos + 9 + n <= |data| then Some(Span(pos + 9, n)) else Walk(data, pos + |e.Bytes()|, end)
  {
    var body := e.data.body;
    assert e.Bytes() + [] == e.Bytes();
    ExtensionHeader(data, data, pos, e, []);
    assert body[2] == data[pos + 4 + 2] && body[3] == data[pos + 4 + 3] && body[4] == data[pos + 4 + 4];
    WalkReads(data, pos, end, |body|, n);
  }

  /** A server_name extension whose host name has any length field, well-formed or
      not, wholly arrived.  The length is held against the bytes that have arrived
      and not against the extension: what is returned lies inside the extension
      exactly when the length fits it, and otherwise runs on into the bytes behind
      it. */
  lemma NameInsideIff(data: seq<Byte>, pos: nat, end: nat, e: Extension)
    requires e.Valid() && !e.Skipped() && ContinuesWith(data, pos, e.Bytes()) && pos + |e.Bytes()| <= end
    ensures var body := e.data.body;
            var n := Word(body[3], body[4]);
            var after := pos + |e.Bytes()|;
            && Walk(data, pos, end)
               == (if pos + 9 + n <= |data| then Some(Span(pos + 9, n)) else Walk(data, after, end))
            && (pos + 9 + n <= after <==> 5 + n <= |body|)
            && (pos + 9 + n <= |data| ==>
                  data[pos + 9..pos + 9 + n]
                  == if 5 + n <= |body| then body[5..5 + n] else body[5..] + data[after..pos + 9 + n])
  {
    var body := e.data.body;
    var n := Word(body[3], body[4]);
    AnyNameWalk(data, pos, end, e, n);
    if pos + 9 + n <= |data| {
      BytesFrom(data, pos + 4, body, n);
    }
  }

  // ---------------------------------------------------------------- the theorems

  /** Passing an extension list, and then reading a name. */
  lemma PassThenRead(w: Option<Span>, v: Option<Span>, none: bool, at: nat, size: nat, n: nat, name: nat)
    requires w == if none || at <= n then v else None
    requires v == if at + size <= n then Some(Span(at + 9, name)) else None
    ensures w == if at + size <= n then Some(Span(at + 9, name)) else None
  {
  }

  /** The walk over a list with a host name in it. */
  lemma WalkFinds(
    data: seq<Byte>, whole: seq<Byte>, start: nat, end: nat, before: seq<Extension>, e: Extension, list: seq<Byte>,
    host: Vector, more: seq<Byte>, later: seq<Byte>)
    requires data <= whole && AllSkipped(before) && e.Valid() && e.Names(list, host, more)
    requires ContinuesWith(whole, start, ListBytes(before) + (e.Bytes() + later))
    requires end == start + |ListBytes(before) + (e.Bytes() + later)|
    ensures var at := start + |ListBytes(before)|;
            && Walk(data, start, end) == (if at + |e.Bytes()| <= |data| then Some(Span(at + 9, |host.body|)) else None)
            && (at + |e.Bytes()| <= |data| ==> OccursAt(data, at + 9, host.body))
  {
    var at := start + |ListBytes(before)|;
    PassList(data, whole, start, end, before, e.Bytes() + later);
    ReadName(data, whole, at, end, e, list, host, more, later);
    PassThenRead(Walk(data, start, end), Walk(data, at, end), before == [], at, |e.Bytes()|, |data|, |host.body|);
  }

  lemma NameIsRead(
    data: seq<Byte>, span: Option<Span>, found: bool, at: nat, name: seq<Byte>, utf8: seq<Byte> -> bool)
    requires span == if found then Some(Span(at, |name|)) else None
    requires found ==> OccursAt(data, at, name)
    ensures AsText(data, span, utf8) == if found && utf8(name) then Some(name) else None
  {
    assert found ==> data[at..at + |name|] == name;
  }

  /** Server name extraction.  Take any ClientHello with a server_name extension that
      starts with a host name, whatever its session id, suites, compression methods,
      earlier and later extensions; let the bytes be cut anywhere, or followed by
      anything.  The walk returns exactly that name once its extension has arrived,
      and nothing before; it never returns a piece of it. */
  lemma FindsServerName(
    data: seq<Byte>, whole: seq<Byte>, h: Hello, before: seq<Extension>, e: Extension, list: seq<Byte>, host: Vector,
    more: seq<Byte>, later: seq<Byte>, utf8: seq<Byte> -> bool)
    requires h.Valid() && ContinuesWith(whole, 0, h.Encode()) && data <= whole
    requires AllSkipped(before) && e.Valid() && e.Names(list, host, more)
    requires h.extensions.body == ListBytes(before) + (e.Bytes() + later)
    ensures var needed := h.ListStart() + |ListBytes(before)| + |e.Bytes()|;
            Sni(data, utf8) == if |data| >= needed && utf8(host.body) then Some(host.body) else None
  {
    ReachesList(data, whole, h);
    var start, size := h.ListStart(), |h.extensions.body|;
    var needed := start + |ListBytes(before)| + |e.Bytes()|;
    WalkFinds(data, whole, start, start + size, before, e, list, host, more, later);
    NameIsRead(data, RawName(data), |data| >= needed, start + |ListBytes(before)| + 9, host.body, utf8);
  }

  /** And a ClientHello without one yields nothing, whatever follows it. */
  lemma FindsNothing(data: seq<Byte>, whole: seq<Byte>, h: Hello, es: seq<Extension>, utf8: seq<Byte> -> bool)
    requires h.Valid() && ContinuesWith(whole, 0, h.Encode()) && data <= whole
    requires AllSkipped(es) && h.extensions.body == ListBytes(es)
    ensures Sni(data, utf8) == None
  {
    ReachesList(data, whole, h);
    var start, size := h.ListStart(), |h.extensions.body|;
    assert ListBytes(es) + [] == ListBytes(es);
    PassList(data, whole, start, start + size, es, []);
  }
}
