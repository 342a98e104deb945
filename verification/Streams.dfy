/**
  Standard streams as the tracer uses them. `In` and `Out` are the abstract
  states; the classes change them in place.
 */
module Streams {
  import opened Bytes
  import opened Wrappers

  // ---------- Input ----------

  /** The bytes not read yet and the sticky error bits. */
  datatype In = In(rest: ByteString, eof: bool, fail: bool) {
    predicate Good() {
      !eof && !fail
    }
  }

  /** A stream in good state. */
  function Fresh(bytes: ByteString): In {
    In(bytes, false, false)
  }

  /** `read(p, n)`: the new state and the bytes stored at `p`, which are fewer than `n` at the end of input. */
  function Reading(s: In, n: nat): (In, ByteString) {
    if !s.Good() then (s.(fail := true), "")
    else if n <= |s.rest| then (s.(rest := s.rest[n..]), s.rest[..n])
    else (In("", true, true), s.rest)
  }

  /** `peek()`, where `None` is EOF. */
  function Peeking(s: In): (In, Option<Byte>) {
    if !s.Good() then (s.(fail := true), None)
    else if s.rest == "" then (s.(eof := true), None)
    else (s, Some(s.rest[0]))
  }

  class IStream {
    const buffer: ByteString
    var pos: nat
    var eof: bool
    var fail: bool

    predicate Valid()
      reads this
    {
      pos <= |buffer|
    }

    function State(): In
      reads this
      requires Valid()
    {
      In(buffer[pos..], eof, fail)
    }

    constructor (bytes: ByteString)
      ensures Valid() && State() == Fresh(bytes)
    {
      buffer := bytes;
      pos, eof, fail := 0, false, false;
    }

    predicate Good()
      reads this
    {
      !eof && !fail
    }

    method Peek() returns (c: Option<Byte>)
      requires Valid()
      modifies this
      ensures Valid() && (State(), c) == Peeking(old(State()))
    {
      if !Good() {
        fail := true;
        c := None;
      } else if pos == |buffer| {
        eof := true;
        c := None;
      } else {
        c := Some(buffer[pos]);
      }
    }

    method Read(n: nat) returns (got: ByteString)
      requires Valid()
      modifies this
      ensures Valid() && (State(), got) == Reading(old(State()), n)
    {
      if !Good() {
        fail := true;
        got := "";
      } else if n <= |buffer| - pos {
        got := buffer[pos..pos + n];
        assert buffer[pos..][..n] == got && buffer[pos..][n..] == buffer[pos + n..];
        pos := pos + n;
      } else {
        got := buffer[pos..];
        pos := |buffer|;
        assert buffer[pos..] == "";
        eof, fail := true, true;
      }
    }
  }

  // ---------- Output ----------

  /**
    What reached the sink, how much it can hold (`None`: no limit, as for an
    `ostringstream`), and the good bit.
   */
  datatype Out = Out(text: string, limit: Option<nat>, good: bool) {
    predicate Fits(s: string) {
      limit == None || |text| + |s| <= limit.value
    }

    predicate Valid() {
      Fits("")
    }
  }

  /** Writing `s`: a sink that is full takes a prefix and the stream goes bad. */
  function Put(o: Out, s: string): (o': Out)
    requires o.Valid()
    ensures o'.Valid()
  {
    if !o.good then o
    else if o.Fits(s) then o.(text := o.text + s)
    else o.(text := o.text + s[..o.limit.value - |o.text|], good := false)
  }

  lemma PutNothing(o: Out)
    requires o.Valid()
    ensures Put(o, "") == o
  {
    assert o.text + "" == o.text;
  }

  /** All of a text is taken exactly when there is none, or when the stream is good and has room for it. */
  lemma PutExactly(o: Out, s: string)
    requires o.Valid()
    ensures Put(o, s).text == o.text + s <==> s == "" || (o.good && o.Fits(s))
  {
    if s == "" {
      assert o.text + s == o.text;
    } else {
      assert |o.text + s| > |o.text|;
    }
  }

  /** Writing in pieces is writing the concatenation. */
  lemma PutPut(o: Out, s: string, t: string)
    requires o.Valid()
    ensures Put(Put(o, s), t) == Put(o, s + t)
  {
    if o.good {
      if o.Fits(s) {
        assert (o.text + s) + t == o.text + (s + t);
        if !o.Fits(s + t) {
          var room := o.limit.value - |o.text|;
          assert (s + t)[..room] == s + t[..room - |s|];
          assert (o.text + s) + t[..room - |s|] == o.text + (s + t)[..room];
        }
      } else {
        var room := o.limit.value - |o.text|;
        assert (s + t)[..room] == s[..room];
      }
    }
  }

  /** A stream also has a number base, which stays hexadecimal once `std::hex` has been inserted. */
  class OStream {
    const limit: Option<nat>
    var text: string
    var good: bool
    var hex: bool

    function State(): Out
      reads this
    {
      Out(text, limit, good)
    }

    predicate Valid()
      reads this
    {
      State().Valid()
    }

    constructor (limit: Option<nat>)
      ensures Valid() && State() == Out("", limit, true) && !hex
    {
      this.limit := limit;
      text, good, hex := "", true, false;
    }

    method Write(s: string)
      requires Valid()
      modifies this`text, this`good
      ensures Valid() && State() == Put(old(State()), s)
    {
      if good {
        if limit == None || |text| + |s| <= limit.value {
          text := text + s;
        } else {
          text := text + s[..limit.value - |text|];
          good := false;
        }
      }
    }

    /** Inserting `std::hex`. */
    method SetHex()
      requires Valid()
      modifies this`hex
      ensures hex
    {
      hex := true;
    }
  }
}
