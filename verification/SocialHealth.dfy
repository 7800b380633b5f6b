/** The diversity of an agent's interactions: one minus the Herfindahl index of the peers' shares. */
module SocialHealth {
  import opened Seqs

  datatype Interaction = Interaction(peerDid: string, timestamp: int, messageCount: nat)

  function MessageCount(i: Interaction): int { i.messageCount }

  function InWindow(windowStart: int): Interaction -> bool { (i: Interaction) => i.timestamp >= windowStart }

  function WithPeer(peer: string): Interaction -> bool { (i: Interaction) => i.peerDid == peer }

  /** Distinct peers in order of appearance, as a `Set` lists them. */
  function Peers(window: seq<Interaction>): (peers: seq<string>)
    ensures forall i :: 0 <= i < |window| ==> window[i].peerDid in peers
    ensures forall p :: p in peers ==> exists i :: 0 <= i < |window| && window[i].peerDid == p
    ensures forall i, j :: 0 <= i < j < |peers| ==> peers[i] != peers[j]
  {
    if window == [] then []
    else
      var n := |window| - 1;
      var before := Peers(window[..n]);
      if window[n].peerDid in before then before else before + [window[n].peerDid]
  }

  function Total(window: seq<Interaction>): int { Sum(window, MessageCount) }

  function PeerTotal(window: seq<Interaction>, peer: string): int {
    Sum(Filter(window, WithPeer(peer)), MessageCount)
  }

  function Share(part: int, total: int): real {
    if total > 0 then part as real / total as real else 0.0
  }

  function Shares(window: seq<Interaction>, peers: seq<string>): (s: seq<real>)
    ensures |s| == |peers|
    ensures forall k :: 0 <= k < |peers| ==> s[k] == Share(PeerTotal(window, peers[k]), Total(window))
  {
    seq(|peers|, k requires 0 <= k < |peers| => Share(PeerTotal(window, peers[k]), Total(window)))
  }

  function SumReals(s: seq<real>): real {
    if s == [] then 0.0 else SumReals(s[..|s| - 1]) + s[|s| - 1]
  }

  function Square(x: real): real { x * x }

  function SumSquares(s: seq<real>): real {
    if s == [] then 0.0 else SumSquares(s[..|s| - 1]) + Square(s[|s| - 1])
  }

  /** Herfindahl index of the window. */
  function Hhi(window: seq<Interaction>): real {
    SumSquares(Shares(window, Peers(window)))
  }

  // ---- the partition of messages by peer ---------------------------------------------------------------

  function SumPeers(window: seq<Interaction>, peers: seq<string>): int {
    if peers == [] then 0
    else SumPeers(window, peers[..|peers| - 1]) + PeerTotal(window, peers[|peers| - 1])
  }

  lemma PeerTotalNext(window: seq<Interaction>, x: Interaction, peer: string)
    ensures PeerTotal(window + [x], peer)
            == PeerTotal(window, peer) + (if x.peerDid == peer then x.messageCount else 0)
  {
    FilterConcat(window, [x], WithPeer(peer));
    if x.peerDid == peer {
      FilterAll([x], WithPeer(peer));
      SumSnoc(Filter(window, WithPeer(peer)), x, MessageCount);
    } else {
      FilterNone([x], WithPeer(peer));
      assert Filter(window + [x], WithPeer(peer)) == Filter(window, WithPeer(peer));
    }
  }

  /** One more interaction adds its count to its peer's total and to no other. */
  lemma {:induction false} SumPeersNext(window: seq<Interaction>, x: Interaction, peers: seq<string>)
    requires forall i, j :: 0 <= i < j < |peers| ==> peers[i] != peers[j]
    ensures SumPeers(window + [x], peers)
            == SumPeers(window, peers) + (if x.peerDid in peers then x.messageCount else 0)
    decreases |peers|
  {
    if peers != [] {
      var n := |peers| - 1;
      var front, last := peers[..n], peers[n];
      assert peers == front + [last];
      SumPeersNext(window, x, front);
      PeerTotalNext(window, x, last);
      assert x.peerDid in peers <==> x.peerDid in front || x.peerDid == last;
      assert x.peerDid == last ==> x.peerDid !in front;
    }
  }

  lemma SumPeersSnoc(window: seq<Interaction>, peers: seq<string>, p: string)
    ensures SumPeers(window, peers + [p]) == SumPeers(window, peers) + PeerTotal(window, p)
  {
    assert (peers + [p])[..|peers|] == peers;
  }

  /** Per-peer totals partition the window's messages. */
  lemma {:induction false} PeersPartitionMessages(window: seq<Interaction>)
    ensures SumPeers(window, Peers(window)) == Total(window)
    decreases |window|
  {
    if window != [] {
      var n := |window| - 1;
      var front, x := window[..n], window[n];
      assert window == front + [x];
      PeersPartitionMessages(front);
      SumSnoc(front, x, MessageCount);
      SumPeersNext(front, x, Peers(front));
      if x.peerDid !in Peers(front) {
        SumPeersSnoc(window, Peers(front), x.peerDid);
        PeerTotalNext(front, x, x.peerDid);
        NoMessages(front, x.peerDid);
      }
    }
  }

  lemma NoMessages(window: seq<Interaction>, peer: string)
    requires peer !in Peers(window)
    ensures PeerTotal(window, peer) == 0
  {
    forall i | i in window
      ensures !WithPeer(peer)(i)
    {
      var k :| 0 <= k < |window| && window[k] == i;
    }
    FilterNone(window, WithPeer(peer));
  }

  lemma {:induction false} TotalsNonNegative(window: seq<Interaction>)
    ensures Sum(window, MessageCount) >= 0
  {
    if window != [] {
      TotalsNonNegative(window[1..]);
    }
  }

  // ---- bounds -------------------------------------------------------------------------------------------

  lemma {:induction false} SharesSum(window: seq<Interaction>, peers: seq<string>)
    requires Total(window) > 0
    ensures SumReals(Shares(window, peers)) == SumPeers(window, peers) as real / Total(window) as real
    decreases |peers|
  {
    hide Total, PeerTotal;
    if peers != [] {
      var n := |peers| - 1;
      SharesSum(window, peers[..n]);
      assert Shares(window, peers)[..n] == Shares(window, peers[..n]);
      DivSum(SumPeers(window, peers[..n]) as real, PeerTotal(window, peers[n]) as real, Total(window) as real);
    }
  }

  lemma DivSum(a: real, b: real, c: real)
    requires c > 0.0
    ensures (a + b) / c == a / c + b / c
  {
  }

  /** How far numbers are from `c`. */
  function Deviations(s: seq<real>, c: real): (d: seq<real>)
    ensures |d| == |s| && forall k :: 0 <= k < |s| ==> d[k] == s[k] - c
  {
    seq(|s|, k requires 0 <= k < |s| => s[k] - c)
  }

  /** Squares of deviations from `c`, multiplied out: the core of Cauchy-Schwarz. */
  lemma {:induction false} DeviationsExpand(s: seq<real>, c: real)
    ensures SumSquares(Deviations(s, c)) == SumSquares(s) - 2.0 * c * SumReals(s) + |s| as real * c * c
    decreases |s|
  {
    if s != [] {
      hide Square;
      var front, x := s[..|s| - 1], s[|s| - 1];
      DeviationsExpand(front, c);
      assert Deviations(s, c)[..|s| - 1] == Deviations(front, c);
      SquareOfDeviation(x, c);
      assert |s| as real == |front| as real + 1.0;
      OneMoreDeviation(SumSquares(front), SumReals(front), |front| as real, x, c);
    }
  }

  lemma DeviationsAreNonNegative(s: seq<real>, c: real)
    ensures SumSquares(s) - 2.0 * c * SumReals(s) + |s| as real * c * c >= 0.0
  {
    hide SumSquares, SumReals;
    DeviationsExpand(s, c);
    SquaresNonNegative(Deviations(s, c));
  }

  lemma {:induction false} NoSquaresIff(s: seq<real>)
    ensures SumSquares(s) == 0.0 <==> forall k :: 0 <= k < |s| ==> s[k] == 0.0
    decreases |s|
  {
    if s != [] {
      var front, x := s[..|s| - 1], s[|s| - 1];
      NoSquaresIff(front);
      SquaresNonNegative(front);
      SquareNonNegative(x);
      SquareIsZero(x);
      hide Square;
      assert forall k :: 0 <= k < |front| ==> s[k] == front[k];
    }
  }

  lemma SquareIsZero(x: real)
    ensures Square(x) == 0.0 <==> x == 0.0
  {
    if x * x == 0.0 {
      ProductIsZero(x, x);
    }
  }

  lemma SquareOfDeviation(x: real, c: real)
    ensures Square(x - c) == Square(x) - 2.0 * c * x + c * c
  {
    assert (x - c) * (x - c) == x * x - 2.0 * c * x + c * c;
  }

  lemma SquareNonNegative(d: real)
    ensures Square(d) >= 0.0
  {
  }

  lemma OneMoreDeviation(q: real, r: real, n: real, x: real, c: real)
    ensures (q + Square(x)) - 2.0 * c * (r + x) + (n + 1.0) * c * c
            == (q - 2.0 * c * r + n * c * c) + (Square(x) - 2.0 * c * x + c * c)
  {
    assert 2.0 * c * (r + x) == 2.0 * c * r + 2.0 * c * x;
    assert (n + 1.0) * c * c == n * c * c + c * c;
  }

  lemma {:induction false} SquaresBelow(s: seq<real>)
    requires forall k :: 0 <= k < |s| ==> 0.0 <= s[k] <= 1.0
    ensures 0.0 <= SumSquares(s) <= SumReals(s)
    decreases |s|
  {
    hide Square;
    if s != [] {
      var front, x := s[..|s| - 1], s[|s| - 1];
      SquaresBelow(front);
      SquareBelow(x);
      SumsOfMore(s);
    }
  }

  lemma SumsOfMore(s: seq<real>)
    requires s != []
    ensures var front, x := s[..|s| - 1], s[|s| - 1];
            SumSquares(s) == SumSquares(front) + Square(x) && SumReals(s) == SumReals(front) + x
  {
  }

  lemma SquareBelow(x: real)
    requires 0.0 <= x <= 1.0
    ensures 0.0 <= Square(x) <= x
  {
    ProductNonNegative(x, 1.0 - x);
    assert x * (1.0 - x) == x - Square(x);
    SquareNonNegative(x);
  }

  lemma ProductNonNegative(a: real, b: real)
    requires a >= 0.0 && b >= 0.0
    ensures a * b >= 0.0
  {
  }

  lemma ProductIsZero(a: real, b: real)
    requires a * b == 0.0
    ensures a == 0.0 || b == 0.0
  {
  }

  lemma {:induction false} PartBelowTotal(window: seq<Interaction>, peer: string)
    ensures 0 <= PeerTotal(window, peer) <= Total(window)
    decreases |window|
  {
    if window != [] {
      var n := |window| - 1;
      assert window == window[..n] + [window[n]];
      PartBelowTotal(window[..n], peer);
      PeerTotalNext(window[..n], window[n], peer);
      SumSnoc(window[..n], window[n], MessageCount);
    }
  }

  lemma ShareBounds(part: int, total: int)
    requires 0 <= part <= total
    ensures 0.0 <= Share(part, total) <= 1.0
  {
    if total > 0 {
      var a, b := part as real, total as real;
      assert a / b * b == a;
    }
  }

  /** Cauchy-Schwarz: numbers that sum to one have squares that sum to 1/n at least. */
  lemma SquaresAtLeast(s: seq<real>)
    requires s != [] && SumReals(s) == 1.0
    ensures SumSquares(s) >= 1.0 / |s| as real
  {
    hide SumReals, SumSquares;
    var n := |s| as real;
    DeviationsAreNonNegative(s, 1.0 / n);
    Reciprocal(n);
  }

  lemma Reciprocal(n: real)
    requires n > 0.0
    ensures n * (1.0 / n) * (1.0 / n) == 1.0 / n
  {
    assert n * (1.0 / n) == 1.0;
  }

  lemma SharesAreFractions(window: seq<Interaction>)
    ensures var s := Shares(window, Peers(window)); forall k :: 0 <= k < |s| ==> 0.0 <= s[k] <= 1.0
  {
    hide PeerTotal, Total, Share, Peers;
    var peers := Peers(window);
    var s := Shares(window, peers);
    forall k | 0 <= k < |s|
      ensures 0.0 <= s[k] <= 1.0
    {
      PartBelowTotal(window, peers[k]);
      ShareBounds(PeerTotal(window, peers[k]), Total(window));
    }
  }

  lemma SomePeer(window: seq<Interaction>)
    requires Total(window) > 0
    ensures Peers(window) != []
  {
    assert window != [];
    assert window[0].peerDid in Peers(window);
  }

  /**
   * With n peers and at least one message, the shares sum to one and the index is between
   * 1/n and 1.
   */
  lemma HhiBounds(window: seq<Interaction>)
    requires Total(window) > 0
    ensures |Peers(window)| > 0
    ensures SumReals(Shares(window, Peers(window))) == 1.0
    ensures 1.0 / |Peers(window)| as real <= Hhi(window) <= 1.0
  {
    hide SumReals, SumSquares, Peers, Shares, Total, SumPeers;
    var peers := Peers(window);
    PeersPartitionMessages(window);
    SharesSum(window, peers);
    SomePeer(window);
    SharesAreFractions(window);
    SquaresBelow(Shares(window, peers));
    SquaresAtLeast(Shares(window, peers));
  }

  /** Rounded to two decimals, halves upwards. */
  function Rounded(x: real): real { (x * 100.0 + 0.5).Floor as real / 100.0 }

  /** The score before rounding. */
  function Diversity(window: seq<Interaction>): real { 1.0 - Hhi(window) }

  function Score(window: seq<Interaction>): real {
    if Peers(window) != [] then Rounded(Diversity(window)) else 0.0
  }

  function Hundredths(n: int): real { n as real / 100.0 }

  lemma RoundedIsNear(x: real)
    ensures x - 0.005 < Rounded(x) <= x + 0.005
    ensures exists n :: Rounded(x) == Hundredths(n)
    ensures 0.0 <= x <= 1.0 ==> 0.0 <= Rounded(x) <= 1.0
  {
    var y := x * 100.0 + 0.5;
    assert Rounded(x) == Hundredths(y.Floor);
    assert y.Floor as real <= y < y.Floor as real + 1.0;
  }

  /** Without any message every share is zero. */
  lemma {:induction false} ZeroShares(window: seq<Interaction>, peers: seq<string>)
    requires Total(window) <= 0
    ensures SumSquares(Shares(window, peers)) == 0.0
    decreases |peers|
  {
    if peers != [] {
      ZeroShares(window, peers[..|peers| - 1]);
      assert Shares(window, peers)[..|peers| - 1] == Shares(window, peers[..|peers| - 1]);
    }
  }

  /**
   * The unrounded diversity is in [0, 1 - 1/n] exactly when there is a message: peers with
   * no messages at all count as perfectly diverse. The rounded score is in [0, 1] always.
   */
  lemma DiversityBounds(window: seq<Interaction>)
    requires Peers(window) != []
    ensures Total(window) > 0 <==> 0.0 <= Diversity(window) <= 1.0 - 1.0 / |Peers(window)| as real
    ensures Total(window) <= 0 ==> Diversity(window) == 1.0
    ensures 0.0 <= Score(window) <= 1.0
    ensures Diversity(window) - 0.005 < Score(window) <= Diversity(window) + 0.005
    ensures exists n :: Score(window) == Hundredths(n)
  {
    hide SumReals, SumSquares, Peers, Shares, Total, Rounded;
    if Total(window) > 0 {
      HhiBounds(window);
      Positive(|Peers(window)| as real);
    } else {
      ZeroShares(window, Peers(window));
      Positive(|Peers(window)| as real);
    }
    RoundedIsNear(Diversity(window));
  }

  /** One peer with whom no message was exchanged counts as perfectly diverse: the bound would be zero. */
  lemma SilentPeerIsDiverse()
    ensures var window := [Interaction("p", 0, 0)];
            |Peers(window)| == 1 && Total(window) == 0 && Diversity(window) == 1.0
  {
    var window := [Interaction("p", 0, 0)];
    assert Peers(window[..0]) == [];
    assert Peers(window) == ["p"];
    DiversityBounds(window);
  }

  lemma Positive(n: real)
    requires n > 0.0
    ensures 1.0 / n > 0.0
  {
  }

  /** Numbers in [0, 1] that add up to no more than their squares are zeros and ones. */
  lemma {:induction false} OnlyZerosAndOnes(s: seq<real>)
    requires forall k :: 0 <= k < |s| ==> 0.0 <= s[k] <= 1.0
    requires SumSquares(s) == SumReals(s)
    ensures forall k :: 0 <= k < |s| ==> s[k] == 0.0 || s[k] == 1.0
    decreases |s|
  {
    hide Square;
    if s != [] {
      var front, x := s[..|s| - 1], s[|s| - 1];
      SquaresBelow(front);
      SquareBelow(x);
      SumsOfMore(s);
      OnlyZerosAndOnes(front);
      ZeroOrOne(x);
      assert forall k :: 0 <= k < |front| ==> s[k] == front[k];
    }
  }

  lemma ZeroOrOne(x: real)
    requires Square(x) == x
    ensures x == 0.0 || x == 1.0
  {
    assert x * (x - 1.0) == Square(x) - x;
    ProductIsZero(x, x - 1.0);
  }

  lemma {:induction false} ZerosSum(s: seq<real>)
    requires forall k :: 0 <= k < |s| ==> s[k] == 0.0
    ensures SumReals(s) == 0.0
    decreases |s|
  {
    if s != [] {
      ZerosSum(s[..|s| - 1]);
    }
  }

  lemma {:induction false} OneSquareBelow(s: seq<real>, k: nat)
    requires k < |s|
    ensures Square(s[k]) <= SumSquares(s)
    decreases |s|
  {
    hide Square;
    var front, x := s[..|s| - 1], s[|s| - 1];
    SquareNonNegative(x);
    if k < |front| {
      OneSquareBelow(front, k);
    } else {
      SquaresNonNegative(front);
    }
  }

  lemma {:induction false} SquaresNonNegative(s: seq<real>)
    ensures SumSquares(s) >= 0.0
    decreases |s|
  {
    hide Square;
    if s != [] {
      SquaresNonNegative(s[..|s| - 1]);
      SquareNonNegative(s[|s| - 1]);
    }
  }

  lemma WholeShare(part: int, total: int)
    requires total > 0
    ensures Share(part, total) == 1.0 <==> part == total
  {
    var a, b := part as real, total as real;
    assert a / b * b == a;
  }

  /** Diversity is zero exactly when one peer has all the messages. */
  lemma NoDiversityIff(window: seq<Interaction>)
    requires Total(window) > 0
    ensures Diversity(window) == 0.0
            <==> exists p :: p in Peers(window) && PeerTotal(window, p) == Total(window)
  {
    hide SumReals, SumSquares, Peers, Total, PeerTotal, Share;
    var peers, total := Peers(window), Total(window);
    var s := Shares(window, peers);
    HhiBounds(window);
    SharesAreFractions(window);
    if Hhi(window) == 1.0 {
      OnlyZerosAndOnes(s);
      if forall k :: 0 <= k < |s| ==> s[k] == 0.0 {
        ZerosSum(s);
        assert false;
      }
      var k :| 0 <= k < |s| && s[k] != 0.0;
      WholeShare(PeerTotal(window, peers[k]), total);
      assert peers[k] in peers;
    }
    if p :| p in peers && PeerTotal(window, p) == total {
      var k :| 0 <= k < |peers| && peers[k] == p;
      WholeShare(PeerTotal(window, p), total);
      OneSquareBelow(s, k);
    }
  }

  // ---- what the index measures -----------------------------------------------------------------------------

  function SquareOf(n: int): int { n * n }

  function Times(a: real, b: real): real { a * b }

  /** The sum of the squares of the peers' totals. */
  function SquaredTotals(window: seq<Interaction>, peers: seq<string>): int {
    if peers == [] then 0
    else SquaredTotals(window, peers[..|peers| - 1]) + SquareOf(PeerTotal(window, peers[|peers| - 1]))
  }

  lemma SquaredShare(part: int, total: int)
    requires total > 0
    ensures Times(Square(Share(part, total)), SquareOf(total) as real) == SquareOf(part) as real
  {
    var a, b := part as real, total as real;
    var q := a / b;
    assert q * b == a;
    Regroup(q, b);
    assert (total * total) as real == b * b && (part * part) as real == a * a;
  }

  lemma Regroup(q: real, b: real)
    ensures (q * q) * (b * b) == (q * b) * (q * b)
  {
    assert (q * q) * (b * b) == q * (q * (b * b));
    assert q * (b * b) == (q * b) * b;
    assert q * ((q * b) * b) == (q * b) * (q * b);
  }

  lemma Distribute(a: real, b: real, c: real)
    ensures (a + b) * c == a * c + b * c
    ensures Times(a + b, c) == Times(a, c) + Times(b, c)
  {
  }

  lemma {:induction false} SquaredSharesSum(window: seq<Interaction>, peers: seq<string>)
    requires Total(window) > 0
    ensures Times(SumSquares(Shares(window, peers)), SquareOf(Total(window)) as real)
            == SquaredTotals(window, peers) as real
    decreases |peers|
  {
    if peers != [] {
      hide Total, PeerTotal, Square, Share, SquareOf, Times;
      var n, t := |peers| - 1, Total(window);
      var last := PeerTotal(window, peers[n]);
      SquaredSharesSum(window, peers[..n]);
      assert Shares(window, peers)[..n] == Shares(window, peers[..n]);
      SquaredShare(last, t);
      Distribute(SumSquares(Shares(window, peers[..n])), Square(Share(last, t)), SquareOf(t) as real);
    }
  }

  /** The index, times the square of all messages, is the sum of the squares of the peers' messages. */
  lemma IndexIsSquaredTotals(window: seq<Interaction>)
    requires Total(window) > 0
    ensures Hhi(window) * SquareOf(Total(window)) as real == SquaredTotals(window, Peers(window)) as real
  {
    hide SumSquares, SquaredTotals, Peers, Total, Shares, SquareOf;
    SquaredSharesSum(window, Peers(window));
  }

  lemma SharesCompare(a: int, b: int, total: int)
    requires total > 0
    ensures Share(a, total) == Share(b, total) <==> a == b
  {
    var t := total as real;
    assert a as real / t * t == a as real && b as real / t * t == b as real;
  }

  lemma {:induction false} EqualSum(s: seq<real>, c: real)
    requires forall k :: 0 <= k < |s| ==> s[k] == c
    ensures SumReals(s) == |s| as real * c
    decreases |s|
  {
    if s != [] {
      EqualSum(s[..|s| - 1], c);
      Distribute((|s| - 1) as real, 1.0, c);
    }
  }

  /** With shares that sum to one, the squares of their deviations from 1/n sum to the index above 1/n. */
  lemma DeviationFromLowest(s: seq<real>)
    requires s != [] && SumReals(s) == 1.0
    ensures var c := 1.0 / |s| as real;
            SumSquares(s) == c <==> forall k :: 0 <= k < |s| ==> s[k] == c
  {
    hide SumReals, SumSquares, Deviations;
    var n := |s| as real;
    var c := 1.0 / n;
    var d := Deviations(s, c);
    DeviationsExpand(s, c);
    Reciprocal(n);
    assert SumSquares(d) == SumSquares(s) - c;
    NoSquaresIff(d);
    assert forall k :: 0 <= k < |s| ==> d[k] == s[k] - c;
  }

  /** The index is as low as it can be exactly when all peers have equally many messages. */
  lemma LowestIffEven(window: seq<Interaction>)
    requires Total(window) > 0
    ensures |Peers(window)| > 0
    ensures Hhi(window) == 1.0 / |Peers(window)| as real
            <==> forall p, q :: p in Peers(window) && q in Peers(window) ==>
                   PeerTotal(window, p) == PeerTotal(window, q)
  {
    hide SumReals, SumSquares, Peers, Total, PeerTotal, Share;
    HhiBounds(window);
    var peers := Peers(window);
    var s := Shares(window, peers);
    DeviationFromLowest(s);
    EvenShares(window, peers);
    if forall i, j :: 0 <= i < |s| && 0 <= j < |s| ==> s[i] == s[j] {
      EqualSum(s, s[0]);
      Quotient(|s| as real, s[0]);
    }
  }

  /** Shares are equal exactly when totals are. */
  lemma EvenShares(window: seq<Interaction>, peers: seq<string>)
    requires Total(window) > 0
    ensures var s := Shares(window, peers);
            (forall i, j :: 0 <= i < |s| && 0 <= j < |s| ==> s[i] == s[j])
            <==> forall p, q :: p in peers && q in peers ==> PeerTotal(window, p) == PeerTotal(window, q)
  {
    hide Total, PeerTotal, Share;
    var s := Shares(window, peers);
    forall i, j | 0 <= i < |s| && 0 <= j < |s|
      ensures s[i] == s[j] <==> PeerTotal(window, peers[i]) == PeerTotal(window, peers[j])
    {
      SharesCompare(PeerTotal(window, peers[i]), PeerTotal(window, peers[j]), Total(window));
    }
    if forall i, j :: 0 <= i < |s| && 0 <= j < |s| ==> s[i] == s[j] {
      forall p, q | p in peers && q in peers
        ensures PeerTotal(window, p) == PeerTotal(window, q)
      {
        var i :| 0 <= i < |peers| && peers[i] == p;
        var j :| 0 <= j < |peers| && peers[j] == q;
        assert s[i] == s[j];
      }
    }
    if forall p, q :: p in peers && q in peers ==> PeerTotal(window, p) == PeerTotal(window, q) {
      forall i, j | 0 <= i < |s| && 0 <= j < |s|
        ensures s[i] == s[j]
      {
        assert peers[i] in peers && peers[j] in peers;
      }
    }
  }

  lemma Quotient(n: real, x: real)
    requires n > 0.0 && n * x == 1.0
    ensures x == 1.0 / n
  {
    assert n * (1.0 / n) == 1.0;
    assert n * (x - 1.0 / n) == n * x - n * (1.0 / n);
    ProductIsZero(n, x - 1.0 / n);
  }

  // ---- the monitor ---------------------------------------------------------------------------------------

  const DAY_MS := 24 * 60 * 60 * 1000
  const KEPT_MS := 30 * DAY_MS

  /** What is kept of all interactions ever recorded: each recording drops what is older than 30 days. */
  function Kept(history: seq<Interaction>): seq<Interaction> {
    if history == [] then []
    else
      var n := |history| - 1;
      Filter(Kept(history[..n]) + [history[n]], InWindow(history[n].timestamp - KEPT_MS))
  }

  /** Every interaction since `from` has outlived all later recordings. */
  ghost predicate NothingLost(history: seq<Interaction>, from: int) {
    forall i, j :: 0 <= i < j < |history| && history[i].timestamp >= from
                   ==> history[i].timestamp >= history[j].timestamp - KEPT_MS
  }

  lemma NothingLostNext(history: seq<Interaction>, x: Interaction, from: int)
    ensures NothingLost(history + [x], from)
            <==> NothingLost(history, from)
                 && forall i :: i in history && i.timestamp >= from ==> i.timestamp >= x.timestamp - KEPT_MS
  {
    var all := history + [x];
    if NothingLost(all, from) {
      forall i | i in history && i.timestamp >= from
        ensures i.timestamp >= x.timestamp - KEPT_MS
      {
        var k :| 0 <= k < |history| && history[k] == i;
        assert all[k] == i && all[|history|] == x;
      }
      forall i, j | 0 <= i < j < |history| && history[i].timestamp >= from
        ensures history[i].timestamp >= history[j].timestamp - KEPT_MS
      {
        assert all[i] == history[i] && all[j] == history[j];
      }
    }
  }

  /** Filtering by `q` after `p` loses nothing exactly when `p` holds wherever `q` does. */
  lemma {:induction false} LosesNothingIff(s: seq<Interaction>, p: Interaction -> bool, q: Interaction -> bool)
    ensures |Filter(Filter(s, p), q)| <= |Filter(s, q)|
    ensures |Filter(Filter(s, p), q)| == |Filter(s, q)| <==> forall x :: x in s && q(x) ==> p(x)
    ensures |Filter(Filter(s, p), q)| == |Filter(s, q)| ==> Filter(Filter(s, p), q) == Filter(s, q)
  {
    if s != [] {
      LosesNothingIff(s[1..], p, q);
      assert forall x :: x in s <==> x == s[0] || x in s[1..];
      if p(s[0]) {
        assert Filter(s, p)[1..] == Filter(s[1..], p);
      }
    }
  }

  /** `kept` has the window of `all` from `from` on, if and only if `lossless`. */
  ghost predicate Suffices(kept: seq<Interaction>, all: seq<Interaction>, from: int, lossless: bool) {
    var k, a := Filter(kept, InWindow(from)), Filter(all, InWindow(from));
    |k| <= |a| && (k == a <==> lossless) && (|k| == |a| ==> k == a)
  }

  /** One more recording, which prunes what is not in the window `p`. */
  lemma SufficesNext(kept: seq<Interaction>, all: seq<Interaction>, x: Interaction, from: int, lossless: bool,
                     p: Interaction -> bool)
    requires Suffices(kept, all, from, lossless) && p(x)
    ensures Suffices(Filter(kept + [x], p), all + [x], from,
                     lossless && forall i :: i in all && i.timestamp >= from ==> p(i))
  {
    var q := InWindow(from);
    LosesNothingIff(kept + [x], p, q);
    FilterConcat(kept, [x], q);
    FilterConcat(all, [x], q);
    hide Filter;
    if Filter(kept, q) == Filter(all, q) {
      SameWindowMembers(kept, all, q);
      assert forall i :: i in kept + [x] <==> i in kept || i == x;
    }
  }

  lemma {:induction false} KeptSuffices(history: seq<Interaction>, from: int)
    ensures Suffices(Kept(history), history, from, NothingLost(history, from))
    decreases |history|
  {
    if history != [] {
      var n := |history| - 1;
      var front, x := history[..n], history[n];
      assert history == front + [x];
      KeptSuffices(front, from);
      NothingLostNext(front, x, from);
      KeptNext(front, x);
      hide Suffices, NothingLost, Filter, Kept;
      SufficesNext(Kept(front), front, x, from, NothingLost(front, from), InWindow(x.timestamp - KEPT_MS));
      assert forall i :: i in front && i.timestamp >= from ==>
                 (InWindow(x.timestamp - KEPT_MS)(i) <==> i.timestamp >= x.timestamp - KEPT_MS);
    }
  }

  /** What is kept has the same window as all that was recorded, exactly when nothing in it was lost. */
  lemma KeptSufficesIff(history: seq<Interaction>, from: int)
    ensures Filter(Kept(history), InWindow(from)) == Filter(history, InWindow(from)) <==> NothingLost(history, from)
  {
    hide Filter, NothingLost, Kept;
    KeptSuffices(history, from);
  }

  lemma KeptNext(front: seq<Interaction>, x: Interaction)
    ensures Kept(front + [x]) == Filter(Kept(front) + [x], InWindow(x.timestamp - KEPT_MS))
  {
    assert (front + [x])[..|front|] == front;
  }

  lemma SameWindowMembers(a: seq<Interaction>, b: seq<Interaction>, q: Interaction -> bool)
    requires Filter(a, q) == Filter(b, q)
    ensures forall x :: q(x) ==> (x in a <==> x in b)
  {
    forall x | q(x)
      ensures x in a <==> x in b
    {
      assert x in Filter(a, q) <==> x in Filter(b, q);
    }
  }

  /** Windows of 30 days at most lose nothing, as long as no recording is later than the assessment. */
  lemma ThirtyDaysSuffice(history: seq<Interaction>, now: int, days: int)
    requires days <= 30 && forall i :: i in history ==> i.timestamp <= now
    ensures var from := now - days * 86_400_000;
            Filter(Kept(history), InWindow(from)) == Filter(history, InWindow(from))
  {
    hide Filter, Kept;
    forall i, j | 0 <= i < j < |history| && history[i].timestamp >= now - days * DAY_MS
      ensures history[i].timestamp >= history[j].timestamp - KEPT_MS
    {
      assert history[j] in history;
    }
    KeptSufficesIff(history, now - days * DAY_MS);
  }

  /** Longer windows can lose: an interaction is gone once another is recorded a whole window later. */
  lemma LongerWindowsLose(peer: string, days: int)
    requires days > 30
    ensures var history := [Interaction(peer, 0, 1), Interaction(peer, days * 86_400_000, 1)];
            Filter(Kept(history), InWindow(0)) != Filter(history, InWindow(0))
  {
    var history := [Interaction(peer, 0, 1), Interaction(peer, days * DAY_MS, 1)];
    hide Filter, Kept;
    assert history[0].timestamp >= 0 && history[0].timestamp < history[1].timestamp - KEPT_MS;
    KeptSufficesIff(history, 0);
  }

  class Monitor {
    const analysisWindowDays: nat
    var interactions: seq<Interaction>
    /** Every interaction recorded. */
    ghost var history: seq<Interaction>

    ghost predicate Valid()
      reads this
    {
      interactions == Kept(history)
    }

    constructor (analysisWindowDays: nat := 7)
      ensures Valid() && this.analysisWindowDays == analysisWindowDays && history == []
    {
      this.analysisWindowDays := analysisWindowDays;
      interactions, history := [], [];
    }

    /**
     * Adds an interaction and drops those older than 30 days. A window still shows all that was
     * ever recorded in it exactly when no recording, this one included, has dropped some of it.
     */
    method RecordInteraction(peerDid: string, messageCount: nat, now: int)
      requires Valid()
      modifies this
      ensures Valid() && history == old(history) + [Interaction(peerDid, now, messageCount)]
      ensures forall from :: Filter(interactions, InWindow(from)) == Filter(history, InWindow(from))
                             <==> NothingLost(history, from)
    {
      hide Filter, Kept, NothingLost;
      var x := Interaction(peerDid, now, messageCount);
      KeptNext(history, x);
      interactions := interactions + [x];
      interactions := Filter(interactions, InWindow(now - KEPT_MS));
      history := history + [x];
      forall from
        ensures Filter(interactions, InWindow(from)) == Filter(history, InWindow(from)) <==> NothingLost(history, from)
      {
        KeptSufficesIff(history, from);
      }
    }

    /** The interactions that an assessment looks at. */
    function Window(now: int): seq<Interaction>
      reads this
    {
      Filter(interactions, InWindow(now - analysisWindowDays * DAY_MS))
    }

    /** The part of the assessment that computes the score. */
    method AssessDiversity(now: int) returns (activePeers: nat, diversityScore: real)
      ensures var window := Filter(interactions, InWindow(now - analysisWindowDays * 86_400_000));
              activePeers == |Peers(window)| && diversityScore == Score(window)
    {
      hide Peers, Total, PeerTotal, SumSquares, Rounded;
      var windowInteractions := Window(now);
      var peerSet := Peers(windowInteractions);
      activePeers := |peerSet|;
      var peerShares := PeerShares(windowInteractions, peerSet);
      var hhi := SumSquares(peerShares);
      diversityScore := if activePeers > 0 then Rounded(1.0 - hhi) else 0.0;
    }
  }

  method PeerShares(windowInteractions: seq<Interaction>, peerSet: seq<string>) returns (peerShares: seq<real>)
    ensures peerShares == Shares(windowInteractions, peerSet)
  {
    hide Total, PeerTotal, Share;
    var totalMessages := Total(windowInteractions);
    peerShares := [];
    for k := 0 to |peerSet|
      invariant |peerShares| == k
      invariant forall j :: 0 <= j < k ==>
                  peerShares[j] == Share(PeerTotal(windowInteractions, peerSet[j]), totalMessages)
    {
      var peerMsgs := PeerTotal(windowInteractions, peerSet[k]);
      peerShares := peerShares + [Share(peerMsgs, totalMessages)];
    }
  }
}
