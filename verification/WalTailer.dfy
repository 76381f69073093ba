/** The WAL tailer: turns a growing file into the sequence of its records. */
module WalTailers {
  import opened Prelude

  /** Record encoding and decoding, of which only the laws below are used. */
  datatype Codec<!R> = Codec(enc: R -> seq<Byte>, dec: seq<Byte> -> Option<(R, nat)>)

  /** Decoding finds a complete record whatever follows it, and rejects every
      proper prefix of one. */
  ghost predicate Lawful<R(!new)>(c: Codec<R>) {
    && (forall r, rest :: c.dec(c.enc(r) + rest) == Some((r, |c.enc(r)|)))
    && (forall r, part :: part <= c.enc(r) && part != c.enc(r) ==> c.dec(part) == None)
    && (forall r :: c.enc(r) != [])
  }

  function Bytes<R>(c: Codec<R>, log: seq<R>): seq<Byte> {
    if log == [] then [] else Bytes(c, log[..|log| - 1]) + c.enc(log[|log| - 1])
  }

  lemma {:induction false} BytesAppend<R>(c: Codec<R>, log: seq<R>, r: R)
    ensures Bytes(c, log + [r]) == Bytes(c, log) + c.enc(r)
  {
    assert (log + [r])[..|log|] == log;
  }

  lemma {:induction false} BytesPrefix<R>(c: Codec<R>, log: seq<R>, k: nat)
    requires k <= |log|
    ensures Bytes(c, log[..k]) <= Bytes(c, log)
  {
    if k < |log| {
      BytesPrefix(c, log[..|log| - 1], k);
      assert log[..|log| - 1][..k] == log[..k];
    } else {
      assert log[..k] == log;
    }
  }

  /** What is left of a file after its first k records begins with record k, or
      with a proper prefix of it. */
  lemma {:induction false} NextRecord<R>(c: Codec<R>, log: seq<R>, k: nat, file: seq<Byte>, rest: seq<Byte>)
    requires k < |log| && file <= Bytes(c, log) && file == Bytes(c, log[..k]) + rest
    ensures if |Bytes(c, log[..k + 1])| <= |file|
      then |c.enc(log[k])| <= |rest| && rest[..|c.enc(log[k])|] == c.enc(log[k])
            else rest <= c.enc(log[k]) && rest != c.enc(log[k])
  {
    var e := c.enc(log[k]);
    assert log[..k + 1] == log[..k] + [log[k]];
    BytesAppend(c, log[..k], log[k]);
    BytesPrefix(c, log, k + 1);
    var all := Bytes(c, log);
    assert all[..|Bytes(c, log[..k])| + |e|] == Bytes(c, log[..k]) + e;
    assert rest == file[|Bytes(c, log[..k])|..];
    assert forall i :: 0 <= i < |rest| && i < |e| ==> rest[i] == all[|Bytes(c, log[..k])| + i] == e[i];
  }

  class WalTailer<!R(!new)> {
    const codec: Codec<R>
    var offset: nat
    var pending: seq<Byte>
    ghost var read: seq<Byte>
    ghost var delivered: seq<R>

    /** The bytes read so far are the records delivered and the bytes pending. */
    ghost predicate Valid()
      reads this
    {
      Lawful(codec) && offset == |read| && read == Bytes(codec, delivered) + pending
    }

    constructor (codec: Codec<R>)
      requires Lawful(codec)
      ensures Valid() && this.codec == codec && read == [] && delivered == []
    {
      this.codec := codec;
      offset := 0;
      pending := [];
      read := [];
      delivered := [];
    }

    /** Reads what the file has gained. */
    method RefillPending(file: seq<Byte>)
      requires Valid() && read <= file
      modifies this`offset, this`pending, this`read
      ensures Valid() && read == file
    {
      if |file| <= offset {
        assert file == read;
        return;
      }
      pending := pending + file[offset..];
      offset := |file|;
      read := file;
    }

    /** One poll of an append-only file that holds some prefix of the encoded
        log: delivers the log's next record exactly when all of it is there. */
    method PollOnce(file: seq<Byte>, ghost log: seq<R>) returns (r: Option<(R, seq<Byte>)>)
      requires Valid() && read <= file <= Bytes(codec, log) && delivered <= log
      modifies this
      ensures Valid() && read == file && delivered <= log
      ensures r.Some? <==> |old(delivered)| < |log| && |Bytes(codec, log[..|old(delivered)| + 1])| <= |file|
      ensures r.Some? ==> r.value.0 == log[|old(delivered)|] && r.value.1 == codec.enc(r.value.0)
      ensures delivered == if r.Some? then old(delivered) + [r.value.0] else old(delivered)
    {
      RefillPending(file);
      ghost var k := |delivered|;
      assert delivered == log[..k];
      if k < |log| {
        NextRecord(codec, log, k, file, pending);
        var e := codec.enc(log[k]);
        assert |pending| >= |e| && pending[..|e|] == e ==> pending == e + pending[|e|..];
      } else {
        assert log == log[..k];
        assert pending == [];
      }
      if pending == [] {
        return None;
      }
      var d := codec.dec(pending);
      if d.None? {
        return None;
      }
      assert |Bytes(codec, log[..k + 1])| <= |file|;
      var consumed := d.value.1;
      r := Some((d.value.0, pending[..consumed]));
      BytesAppend(codec, delivered, log[k]);
      pending := pending[consumed..];
      delivered := delivered + [log[k]];
    }

    /** Polling until nothing is ready delivers every record the file holds in
        full, in order, and keeps the incomplete tail for later. */
    method Drain(file: seq<Byte>, ghost log: seq<R>) returns (out: seq<R>)
      requires Valid() && read <= file <= Bytes(codec, log) && delivered <= log
      modifies this
      ensures Valid() && delivered == old(delivered) + out && delivered <= log && read == file
      ensures |delivered| < |log| ==> |Bytes(codec, log[..|delivered| + 1])| > |file|
    {
      hide Bytes, Lawful;
      out := [];
      var r := PollOnce(file, log);
      while r.Some?
        invariant Valid() && delivered <= log && read == file
        invariant delivered == old(delivered) + out + if r.Some? then [r.value.0] else []
        invariant r.None? && |delivered| < |log| ==> |Bytes(codec, log[..|delivered| + 1])| > |file|
        decreases r.Some?, |log| - |delivered|
      {
        out := out + [r.value.0];
        r := PollOnce(file, log);
      }
    }
  }
}
