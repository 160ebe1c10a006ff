/**
 * From the UART to the lines of core 1: the byte ring and the line assembler together.
 */
module GnssPath {
  import opened Bytes
  import GnssRing
  import GnssLines

  /** Each byte popped is taken as a character. */
  function Text(b: bytes): string {
    if b == [] then "" else Text(b[..|b| - 1]) + [b[|b| - 1] as char]
  }

  lemma {:induction false} TextConcat(a: bytes, b: bytes)
    ensures Text(a + b) == Text(a) + Text(b)
    decreases |b|
  {
    if b == [] {
      assert a + b == a;
    } else {
      assert (a + b)[..|a + b| - 1] == a + b[..|b| - 1];
      TextConcat(a, b[..|b| - 1]);
    }
  }

  /** More text only adds to the history. */
  lemma {:induction false} HistoryGrows(s: GnssLines.Spec, text: string)
    ensures s.events <= GnssLines.FeedAll(s, text).events
    decreases |text|
  {
    if text != "" {
      HistoryGrows(GnssLines.Feed(s, text[0]), text[1..]);
    }
  }

  function Start(): GnssLines.Spec {
    GnssLines.Spec("", [])
  }

  /** Whatever the interleaving of the two cores, the lines core 1 has seen are a prefix of the
      lines in the accepted bytes, and once it has emptied the ring they are all of them. */
  lemma LinesThroughRing(steps: seq<GnssRing.Step>)
    ensures var s := GnssRing.Run(steps);
      var seen, sent := GnssLines.FeedAll(Start(), Text(s.popped)), GnssLines.FeedAll(Start(), Text(s.accepted));
      seen.events <= sent.events && (|s.popped| == |s.accepted| ==> seen == sent)
  {
    GnssRing.PopsArePrefix(steps);
    var s := GnssRing.Run(steps);
    var held := s.accepted[|s.popped|..];
    assert s.accepted == s.popped + held;
    TextConcat(s.popped, held);
    GnssLines.FeedConcat(Start(), Text(s.popped), Text(held));
    HistoryGrows(GnssLines.FeedAll(Start(), Text(s.popped)), Text(held));
    if |s.popped| == |s.accepted| {
      assert s.popped == s.accepted;
    }
  }
}
