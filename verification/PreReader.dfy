/** Model of buffer/pre_reader.go: a reader that reads ahead and hands the bytes on afterwards. */
module PreReader {
  import opened Bytes

  datatype ReadError = NoError | Eof | Failed

  /** Any io.ReadCloser that sooner or later delivers something, ends or fails: it may split its data as
      it likes, and return nothing and no error `idle` more times. */
  class Source {
    var rest: Bytes
    var idle: nat
    var failures: nat  // how often Read has returned an error other than io.EOF

    constructor (data: Bytes, idle: nat)
      ensures rest == data && this.idle == idle && failures == 0
    {
      rest, this.idle, failures := data, idle, 0;
    }

    method Read(len: nat) returns (data: Bytes, err: ReadError)
      modifies this
      ensures old(rest) == data + rest && |data| <= len && idle <= old(idle)
      ensures err == Eof ==> rest == []
      ensures data == [] && err == NoError && len > 0 ==> idle < old(idle)
      ensures failures == old(failures) + if err == Failed then 1 else 0
    {
      var n :| 0 <= n <= len && n <= |rest|;
      data, rest := rest[..n], rest[n..];
      err := NoError;
      if n == 0 && len > 0 && idle > 0 {
        idle := idle - 1;
      } else if rest == [] && (n > 0 || len > 0) {
        err := Eof;
      } else if n == 0 && len > 0 {
        err := Failed;
      }
      if * {
        err := Failed;
      }
      if err == Failed {
        failures := failures + 1;
      }
    }
  }

  function Smaller(x: int, y: int): int {
    if x < y then x else y
  }

  class PreReader {
    const source: Source
    var buf: Bytes
    var bufIdx: int
    var maxLen: int

    constructor (source: Source, maxLen: int)
      ensures this.source == source && this.maxLen == maxLen && buf == [] && bufIdx == 0
    {
      this.source, this.maxLen := source, maxLen;
      buf, bufIdx := [], 0;
    }

    predicate Valid()
      reads this
    {
      0 <= bufIdx <= |buf| && (|buf| <= maxLen || buf == [])
    }

    /** Reading ahead has stopped at maxLen bytes or at the end of the data. */
    predicate ReadAhead()
      reads this, source
    {
      |buf| >= maxLen || source.rest == []
    }

    /** What is still to be delivered. */
    function Pending(): Bytes
      requires Valid()
      reads this, source
    {
      buf[bufIdx..] + source.rest
    }

    method Read(len: nat) returns (data: Bytes, err: ReadError)
      requires Valid()
      modifies this`bufIdx, source
      ensures Valid() && |data| <= len && old(Pending()) == data + Pending()
      ensures old(ReadAhead()) ==> ReadAhead() && (err == Eof ==> Pending() == [])
      ensures old(bufIdx) < maxLen ==>
        if old(bufIdx) < |buf| then err == NoError && |data| == Smaller(len, |buf| - old(bufIdx))
        else data == [] && err == Eof
      ensures source.idle <= old(source.idle)
      ensures data == [] && err == NoError && len > 0 ==> source.idle < old(source.idle)
      ensures source.failures == old(source.failures) + if err == Failed then 1 else 0
    {
      if bufIdx >= maxLen {
        assert buf[bufIdx..] == [];
        data, err := source.Read(len);
        return;
      } else if |buf| <= bufIdx {
        assert buf[bufIdx..] == [];
        return [], Eof;
      }
      var n := Smaller(len, |buf| - bufIdx);  // copy
      assert buf[bufIdx..] == buf[bufIdx..bufIdx + n] + buf[bufIdx + n..];
      data, err := buf[bufIdx..bufIdx + n], NoError;
      bufIdx := bufIdx + n;
    }

    /** Close forgets what was read ahead; the source is closed with it. */
    method Close()
      modifies this`buf, this`bufIdx, this`maxLen
      ensures Valid() && buf == [] && bufIdx == maxLen == 0 && Pending() == source.rest
    {
      buf, bufIdx, maxLen := [], 0, 0;
    }
  }

  /** The first min(maxLen, length) bytes. */
  function Prefix(data: Bytes, maxLen: int): Bytes {
    if maxLen <= 0 then [] else if |data| <= maxLen then data else data[..maxLen]
  }

  method NewPreReader(reader: Source, maxLen: int) returns (r: PreReader, ok: bool)
    modifies reader
    ensures fresh(r) && r.source == reader && r.Valid() && r.maxLen == maxLen && r.bufIdx == 0
    ensures r.Pending() == old(reader.rest)
    ensures ok ==> r.ReadAhead() && r.buf == Prefix(old(reader.rest), maxLen)
    ensures reader.failures >= old(reader.failures) && (!ok ==> reader.failures > old(reader.failures))
  {
    r := new PreReader(reader, maxLen);
    var i := 0;
    while i < maxLen
      invariant r.source == reader && r.bufIdx == 0 && r.maxLen == maxLen
      invariant i == |r.buf| && (i <= maxLen || i == 0)
      invariant r.buf + reader.rest == old(reader.rest) && reader.failures >= old(reader.failures)
      decreases maxLen - i, reader.idle
    {
      var data, err := reader.Read(maxLen - i);
      if |data| != 0 {
        r.buf := r.buf + data;
        i := i + |data|;
      } else if err == Eof {
        break;
      } else if err != NoError {
        return r, false;
      }
    }
    return r, true;
  }

  /** A reader of the PreReader, with buffers of any sizes. */
  method ReadAll(r: PreReader, sizes: seq<nat>) returns (delivered: Bytes)
    requires r.Valid()
    modifies r`bufIdx, r.source
    ensures r.Valid() && old(r.Pending()) == delivered + r.Pending()
  {
    delivered := [];
    for k := 0 to |sizes|
      invariant r.Valid() && old(r.Pending()) == delivered + r.Pending()
    {
      var data, _ := r.Read(sizes[k]);
      delivered := delivered + data;
    }
  }

  /** io.ReadAll: it reads into a buffer of some size until it gets io.EOF or another error. */
  method ReadToEnd(r: PreReader, size: nat) returns (delivered: Bytes, ok: bool)
    requires r.Valid() && r.ReadAhead() && size > 0
    modifies r`bufIdx, r.source
    ensures r.Valid() && old(r.Pending()) == delivered + r.Pending()
    ensures ok ==> r.Pending() == []
    ensures !ok <==> r.source.failures > old(r.source.failures)
  {
    hide PreReader.Pending, PreReader.ReadAhead, PreReader.Valid;
    delivered, ok := [], true;
    var err := NoError;
    assert delivered + r.Pending() == r.Pending();
    while err == NoError
      invariant r.Valid() && r.ReadAhead() && old(r.Pending()) == delivered + r.Pending()
      invariant err == Eof ==> r.Pending() == []
      invariant r.source.failures == old(r.source.failures) + if err == Failed then 1 else 0
      decreases |r.Pending()|, r.source.idle, if err == NoError then 1 else 0
    {
      var data;
      data, err := r.Read(size);
      assert delivered + (data + r.Pending()) == (delivered + data) + r.Pending();
      delivered := delivered + data;
    }
    ok := err == Eof;
  }

  /** For every source, every maxLen and every sequence of reads: nothing is lost, doubled or moved, and
      what was read ahead stays available as the first bytes of the data. */
  method PreReadStream(reader: Source, maxLen: int, sizes: seq<nat>)
    returns (r: PreReader, delivered: Bytes, ok: bool)
    modifies reader
    ensures r.Valid() && r.source == reader && delivered + r.Pending() == old(reader.rest)
    ensures ok ==> r.buf == Prefix(old(reader.rest), maxLen)
  {
    r, ok := NewPreReader(reader, maxLen);
    delivered := ReadAll(r, sizes);
  }

  /** Reading on to the end after a successful NewPreReader ends, and delivers exactly the original stream
      unless the source fails. */
  method PreReadWhole(reader: Source, maxLen: int, size: nat) returns (delivered: Bytes, ok: bool)
    requires size > 0
    modifies reader
    ensures ok ==> delivered == old(reader.rest)
    ensures !ok ==> reader.failures > old(reader.failures)
  {
    var r, ready := NewPreReader(reader, maxLen);
    if !ready {
      return [], false;
    }
    delivered, ok := ReadToEnd(r, size);
    assert delivered + [] == delivered;
  }
}
