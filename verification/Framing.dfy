/** The byte stream of a session: frames behind four-byte lengths, and their unique split. */
module Framing {
  import opened Bytes
  import opened Wire

  function Framed(f: Str): Str {
    PutUint(|f|, 4, f)
  }

  function Stream(fs: seq<Str>): Str {
    if fs == [] then [] else Stream(fs[..|fs| - 1]) + Framed(fs[|fs| - 1])
  }

  predicate Short(fs: seq<Str>) {
    forall i :: 0 <= i < |fs| ==> |fs[i]| < U32_RANGE
  }

  lemma StreamSnoc(fs: seq<Str>, f: Str)
    ensures Stream(fs + [f]) == Stream(fs) + Framed(f)
  {
    assert (fs + [f])[..|fs|] == fs;
  }

  lemma {:induction false} StreamCons(f: Str, fs: seq<Str>)
    ensures Stream([f] + fs) == PutSized(f, 4, Stream(fs))
    decreases |fs|
  {
    if fs == [] {
      assert [f] + fs == [] + [f];
      StreamSnoc([], f);
      assert [] + Framed(f) == Framed(f) && f + [] == f;
    } else {
      var init, last := fs[..|fs| - 1], fs[|fs| - 1];
      assert [f] + fs == ([f] + init) + [last];
      assert fs == init + [last];
      StreamSnoc([f] + init, last);
      StreamSnoc(init, last);
      StreamCons(f, init);
      PutSizedAppend(f, 4, Stream(init), Framed(last));
    }
  }

  /** A client that reads length-prefixed frames recovers exactly the frames that were sent. */
  lemma {:induction false} StreamInjective(fs: seq<Str>, gs: seq<Str>)
    requires Short(fs) && Short(gs) && Stream(fs) == Stream(gs)
    ensures fs == gs
    decreases |fs|
  {
    assert Stream([]) == [];
    hide GetSized, PutSized, Stream;
    if fs != [] { SplitHead(fs); }
    if gs != [] { SplitHead(gs); }
    if fs != [] && gs != [] {
      var a, b := Stream(fs[1..]), Stream(gs[1..]);
      GetPutSized(fs[0], 4, U32_RANGE, a);
      GetPutSized(gs[0], 4, U32_RANGE, b);
      StreamInjective(fs[1..], gs[1..]);
      assert fs == [fs[0]] + fs[1..] && gs == [gs[0]] + gs[1..];
    }
  }

  lemma SplitHead(fs: seq<Str>)
    requires fs != []
    ensures Stream(fs) == PutSized(fs[0], 4, Stream(fs[1..])) && Stream(fs) != []
  {
    StreamCons(fs[0], fs[1..]);
    assert [fs[0]] + fs[1..] == fs;
  }
}
