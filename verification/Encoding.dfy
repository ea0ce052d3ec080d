/** Records as bytes. */
module Encoding {
  import opened Ordering
  import opened Framing
  import opened Interleaving

  /** Records of one kind as the library writes and reads them; `fits` are those within the widths of the
      fields. */
  datatype Codec<!T(!new)> = Codec(encode: T -> Raw, decode: Raw -> T, maxRaw: nat, fits: T -> bool) {
    ghost predicate Valid() {
      forall x | fits(x) :: decode(encode(x)) == x && |encode(x)| <= maxRaw
    }

    predicate AllFit(s: seq<T>) {
      forall i | 0 <= i < |s| :: fits(s[i])
    }

    predicate EachFit(ss: seq<seq<T>>) {
      forall i | 0 <= i < |ss| :: AllFit(ss[i])
    }

    function Encoded(s: seq<T>): (r: seq<Raw>)
      ensures |r| == |s|
    {
      seq<Raw>(|s|, i requires 0 <= i < |s| => encode(s[i]))
    }

    function Decoded(s: seq<Raw>): (r: seq<T>)
      ensures |r| == |s|
    {
      seq(|s|, i requires 0 <= i < |s| => decode(s[i]))
    }

    function EncodedEach(ss: seq<seq<T>>): (r: seq<seq<Raw>>)
      ensures |r| == |ss|
    {
      seq(|ss|, i requires 0 <= i < |ss| => Encoded(ss[i]))
    }

    function DecodedTags(order: seq<(nat, Raw)>): (r: seq<(nat, T)>)
      ensures |r| == |order|
    {
      seq(|order|, i requires 0 <= i < |order| => (order[i].0, decode(order[i].1)))
    }

    lemma RoundTrip(s: seq<T>)
      requires Valid() && AllFit(s)
      ensures Decoded(Encoded(s)) == s
    {
    }

    lemma {:induction false} ProjectDecoded(order: seq<(nat, Raw)>, source: nat)
      ensures Project(DecodedTags(order), source) == Decoded(Project(order, source))
    {
      if |order| > 0 {
        assert DecodedTags(order)[1..] == DecodedTags(order[1..]);
        ProjectDecoded(order[1..], source);
      }
    }

    /** Decoding an interleaving of encoded queues gives an interleaving of the queues. */
    lemma InterleavesDecoded(order: seq<(nat, Raw)>, queues: seq<seq<T>>)
      requires Valid() && EachFit(queues) && Interleaves(order, EncodedEach(queues))
      ensures Interleaves(DecodedTags(order), queues)
    {
      forall s | 0 <= s < |queues|
        ensures Project(DecodedTags(order), s) == queues[s]
      {
        ProjectDecoded(order, s);
        assert Project(order, s) == EncodedEach(queues)[s];
        RoundTrip(queues[s]);
      }
    }

    lemma {:induction false} FlattenFits(ss: seq<seq<T>>)
      requires EachFit(ss)
      ensures AllFit(Flatten(ss))
    {
      if |ss| > 0 {
        FlattenFits(ss[1..]);
      }
    }

    lemma {:induction false} FlattenEncoded(ss: seq<seq<T>>)
      ensures Flatten(EncodedEach(ss)) == Encoded(Flatten(ss))
    {
      if |ss| > 0 {
        assert EncodedEach(ss)[1..] == EncodedEach(ss[1..]);
        FlattenEncoded(ss[1..]);
      }
    }
  }
}
