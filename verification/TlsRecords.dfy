/** Recognising a buffer made of whole TLS 1.2/1.3 application-data records. */
module TlsRecords {
  import opened Bytes

  const APPLICATION_DATA: seq<Byte> := [0x17, 0x03, 0x03]

  function Record(body: seq<Byte>): seq<Byte> {
    APPLICATION_DATA + [|body| / 256 % 256, |body| % 256] + body
  }

  function Records(bodies: seq<seq<Byte>>): seq<Byte> {
    if bodies == [] then [] else Record(bodies[0]) + Records(bodies[1..])
  }

  ghost predicate Fit(bodies: seq<seq<Byte>>) {
    forall i :: 0 <= i < |bodies| ==> |bodies[i]| < 65536
  }

  function BodyLength(buf: seq<Byte>): nat
    requires |buf| >= 5
  {
    Word(buf[3], buf[4])
  }

  /** The first record is whole. */
  predicate FirstWhole(buf: seq<Byte>) {
    |buf| >= 5 && buf[..3] == APPLICATION_DATA && |buf| - 5 >= BodyLength(buf)
  }

  /** Nothing but whole records, read from the front. */
  predicate Whole(buf: seq<Byte>) {
    buf == [] || (FirstWhole(buf) && Whole(buf[5 + BodyLength(buf)..]))
  }

  method IsCompleteTlsRecord(buf: seq<Byte>) returns (complete: bool)
    ensures complete <==> Whole(buf)
  {
    var pos := 0;
    assert buf[0..] == buf;
    while pos < |buf|
      invariant 0 <= pos <= |buf|
      invariant Whole(buf) <==> Whole(buf[pos..])
    {
      ghost var rest := buf[pos..];
      if |buf| - pos < 5 {
        return false;
      }
      if buf[pos..pos + 3] != APPLICATION_DATA {
        assert rest[..3] == buf[pos..pos + 3];
        return false;
      }
      var recordLen := Word(buf[pos + 3], buf[pos + 4]);
      assert rest[..3] == buf[pos..pos + 3] && BodyLength(rest) == recordLen;
      pos := pos + 5;
      if |buf| - pos < recordLen {
        return false;
      }
      pos := pos + recordLen;
      assert rest[5 + recordLen..] == buf[pos..];
    }
    return true;
  }

  ghost predicate MadeOfRecords(buf: seq<Byte>) {
    exists bodies :: Fit(bodies) && buf == Records(bodies)
  }

  /** Whole records are exactly the concatenations of records with bodies that
      the 16-bit length can name. */
  lemma WholeIffRecords(buf: seq<Byte>)
    ensures Whole(buf) <==> MadeOfRecords(buf)
  {
    if Whole(buf) {
      var bodies := Split(buf);
      assert Fit(bodies) && buf == Records(bodies);
    }
    forall bodies | Fit(bodies) && buf == Records(bodies)
      ensures Whole(buf)
    {
      RecordsAreWhole(bodies);
    }
  }

  lemma WordParts(high: Byte, low: Byte)
    ensures Word(high, low) / 256 % 256 == high && Word(high, low) % 256 == low
  {
  }

  lemma FirstRecord(buf: seq<Byte>)
    requires FirstWhole(buf)
    ensures Record(buf[5..5 + BodyLength(buf)]) == buf[..5 + BodyLength(buf)]
  {
    var body := buf[5..5 + BodyLength(buf)];
    WordParts(buf[3], buf[4]);
    assert buf[..5 + |body|] == buf[..3] + [buf[3], buf[4]] + body;
  }

  lemma {:induction false} Split(buf: seq<Byte>) returns (bodies: seq<seq<Byte>>)
    requires Whole(buf)
    ensures Fit(bodies) && buf == Records(bodies)
    decreases |buf|
  {
    if buf == [] {
      bodies := [];
    } else {
      var n := BodyLength(buf);
      var rest := Split(buf[5 + n..]);
      var body := buf[5..5 + n];
      bodies := [body] + rest;
      assert bodies[1..] == rest;
      FirstRecord(buf);
      assert buf == buf[..5 + n] + buf[5 + n..];
    }
  }

  lemma {:induction false} RecordsAreWhole(bodies: seq<seq<Byte>>)
    requires Fit(bodies)
    ensures Whole(Records(bodies))
    decreases |bodies|
  {
    if bodies != [] {
      var buf := Records(bodies);
      var n := |bodies[0]|;
      assert n < 65536;
      RecordsAreWhole(bodies[1..]);
      assert buf[..3] == APPLICATION_DATA;
      assert buf[3] == n / 256 % 256 && buf[4] == n % 256;
      assert BodyLength(buf) == n by {
        assert n / 256 % 256 == n / 256;
      }
      assert buf[5 + n..] == Records(bodies[1..]);
    }
  }
}
