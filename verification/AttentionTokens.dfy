/**
 * Attention tokens: amounts that expire. Spending consumes a holder's live tokens,
 * those that expire first going first.
 */
module AttentionTokens {
  import opened Seqs
  import opened JsonStores

  datatype Token = Token(id: string, holder: string, amount: nat, issuedAt: int, expiresAt: int)

  datatype Outcome = Spent(spent: int, remaining: int) | InsufficientTokens

  function TokenId(t: Token): string { t.id }

  function Amount(t: Token): int { t.amount }

  function Live(holder: string, now: int): Token -> bool {
    (t: Token) => t.holder == holder && t.expiresAt > now
  }

  function NotLive(holder: string, now: int): Token -> bool {
    (t: Token) => !(t.holder == holder && t.expiresAt > now)
  }

  /** What the holder can still spend at time `now`. */
  function Balance(tokens: seq<Token>, holder: string, now: int): int {
    Sum(Filter(tokens, Live(holder, now)), Amount)
  }

  // ---- the spend loop on values -----------------------------------------------------

  function InsertByExpiry(t: Token, s: seq<Token>): seq<Token> {
    if s == [] || t.expiresAt <= s[0].expiresAt then [t] + s
    else [s[0]] + InsertByExpiry(t, s[1..])
  }

  /** The stable sort by expiry. */
  function SortByExpiry(s: seq<Token>): seq<Token> {
    if s == [] then [] else InsertByExpiry(s[0], SortByExpiry(s[1..]))
  }

  function SpendFrom(tokens: seq<Token>, order: seq<Token>, remaining: int): (seq<Token>, int)
    decreases |order|
  {
    if order == [] || remaining <= 0 then (tokens, remaining)
    else
      var t := order[0];
      if t.amount <= remaining then
        SpendFrom(Without(tokens, TokenId, t.id), order[1..], remaining - t.amount)
      else
        SpendFrom(Put(tokens, TokenId, t.(amount := t.amount - remaining)), order[1..], 0)
  }

  function Spend(tokens: seq<Token>, holder: string, amount: int, now: int): (seq<Token>, Outcome) {
    var order := SortByExpiry(Filter(tokens, Live(holder, now)));
    var (after, remaining) := SpendFrom(tokens, order, amount);
    (after,
     if amount - remaining == 0 then InsufficientTokens
     else Spent(amount - remaining, Balance(after, holder, now)))
  }

  // ---- balances as weighted sums ----------------------------------------------------

  /** A token's contribution to the holder's balance at time `now`. */
  function Worth(holder: string, now: int): Token -> int {
    (t: Token) => if t.holder == holder && t.expiresAt > now then t.amount else 0
  }

  lemma {:induction false} BalanceIsWorth(tokens: seq<Token>, holder: string, now: int)
    ensures Balance(tokens, holder, now) == Sum(tokens, Worth(holder, now))
  {
    if tokens != [] {
      var rest := tokens[1..];
      BalanceIsWorth(rest, holder, now);
      if Live(holder, now)(tokens[0]) {
        assert Filter(tokens, Live(holder, now)) == [tokens[0]] + Filter(rest, Live(holder, now));
      }
    }
  }

  lemma WorthWithout(tokens: seq<Token>, t: Token, f: Token -> int)
    requires DistinctIds(tokens, TokenId) && t in tokens
    ensures Sum(Without(tokens, TokenId, t.id), f) == Sum(tokens, f) - f(t)
  {
    var k :| 0 <= k < |tokens| && tokens[k] == t;
    IndexIsUnique(tokens, TokenId, k);
    SumRemove(tokens, k, f);
  }

  lemma WorthPut(tokens: seq<Token>, t: Token, t': Token, f: Token -> int)
    requires DistinctIds(tokens, TokenId) && t in tokens && t'.id == t.id
    ensures Sum(Put(tokens, TokenId, t'), f) == Sum(tokens, f) - f(t) + f(t')
  {
    var k :| 0 <= k < |tokens| && tokens[k] == t;
    IndexIsUnique(tokens, TokenId, k);
    SumUpdate(tokens, k, t', f);
  }

  // ---- the order ----------------------------------------------------------------------

  ghost predicate SortedByExpiry(s: seq<Token>) {
    forall i, j :: 0 <= i < j < |s| ==> s[i].expiresAt <= s[j].expiresAt
  }

  lemma {:induction false} InsertMembers(t: Token, s: seq<Token>)
    ensures forall x :: x in InsertByExpiry(t, s) <==> x == t || x in s
  {
    if !(s == [] || t.expiresAt <= s[0].expiresAt) {
      InsertMembers(t, s[1..]);
      assert s == [s[0]] + s[1..];
    }
  }

  lemma {:induction false} InsertSum(t: Token, s: seq<Token>, f: Token -> int)
    ensures Sum(InsertByExpiry(t, s), f) == f(t) + Sum(s, f)
  {
    if s == [] || t.expiresAt <= s[0].expiresAt {
      assert ([t] + s)[1..] == s;
    } else {
      InsertSum(t, s[1..], f);
      assert ([s[0]] + InsertByExpiry(t, s[1..]))[1..] == InsertByExpiry(t, s[1..]);
    }
  }

  lemma {:induction false} InsertFacts(t: Token, s: seq<Token>, f: Token -> int)
    requires SortedByExpiry(s)
    ensures SortedByExpiry(InsertByExpiry(t, s))
    ensures forall x :: x in InsertByExpiry(t, s) <==> x == t || x in s
    ensures Sum(InsertByExpiry(t, s), f) == f(t) + Sum(s, f)
  {
    InsertMembers(t, s);
    InsertSum(t, s, f);
    hide Sum;
    if !(s == [] || t.expiresAt <= s[0].expiresAt) {
      var r := InsertByExpiry(t, s[1..]);
      InsertFacts(t, s[1..], f);
      InsertMembers(t, s[1..]);
      assert forall k :: 0 <= k < |r| ==> r[k] in r;
    }
  }

  lemma {:induction false} SortFacts(s: seq<Token>, f: Token -> int)
    ensures SortedByExpiry(SortByExpiry(s))
    ensures forall x :: x in SortByExpiry(s) <==> x in s
    ensures Sum(SortByExpiry(s), f) == Sum(s, f)
  {
    if s != [] {
      SortFacts(s[1..], f);
      InsertFacts(s[0], SortByExpiry(s[1..]), f);
    }
  }

  lemma PrependDistinct(t: Token, s: seq<Token>)
    ensures DistinctIds([t] + s, TokenId) <==> DistinctIds(s, TokenId) && forall x :: x in s ==> x.id != t.id
  {
    var r := [t] + s;
    assert r[1..] == s;
    assert forall k :: 0 <= k < |s| ==> r[k + 1] == s[k];
    if DistinctIds(r, TokenId) {
      forall x | x in s
        ensures x.id != t.id
      {
        var k :| 0 <= k < |s| && s[k] == x;
        assert TokenId(r[0]) != TokenId(r[k + 1]);
      }
      forall i, j | 0 <= i < j < |s|
        ensures TokenId(s[i]) != TokenId(s[j])
      {
        assert TokenId(r[i + 1]) != TokenId(r[j + 1]);
      }
    }
  }

  lemma {:induction false} InsertDistinct(t: Token, s: seq<Token>)
    requires DistinctIds(s, TokenId) && forall x :: x in s ==> x.id != t.id
    ensures DistinctIds(InsertByExpiry(t, s), TokenId)
  {
    hide DistinctIds;
    if s == [] || t.expiresAt <= s[0].expiresAt {
      PrependDistinct(t, s);
    } else {
      assert s == [s[0]] + s[1..];
      PrependDistinct(s[0], s[1..]);
      InsertDistinct(t, s[1..]);
      InsertMembers(t, s[1..]);
      PrependDistinct(s[0], InsertByExpiry(t, s[1..]));
    }
  }

  lemma {:induction false} SortDistinct(s: seq<Token>)
    requires DistinctIds(s, TokenId)
    ensures DistinctIds(SortByExpiry(s), TokenId)
  {
    if s != [] {
      hide DistinctIds;
      assert s == [s[0]] + s[1..];
      PrependDistinct(s[0], s[1..]);
      SortDistinct(s[1..]);
      SortFacts(s[1..], Amount);
      InsertDistinct(s[0], SortByExpiry(s[1..]));
    }
  }

  lemma {:induction false} FilterDistinct(s: seq<Token>, p: Token -> bool)
    requires DistinctIds(s, TokenId)
    ensures DistinctIds(Filter(s, p), TokenId)
  {
    if s != [] {
      var rest := s[1..];
      FilterDistinct(rest, p);
      var r := Filter(rest, p);
      forall k | 0 <= k < |r|
        ensures r[k].id != s[0].id
      {
        assert r[k] in r;
        var m :| 0 <= m < |rest| && rest[m] == r[k];
        assert TokenId(s[m + 1]) != TokenId(s[0]);
      }
    }
  }

  // ---- what spending leaves -----------------------------------------------------------

  function Max(a: int, b: int): int { if a < b then b else a }

  function Min(a: int, b: int): int { if a < b then a else b }

  /** The tokens still to be visited are stored unchanged, live, and in expiry order. */
  ghost predicate Agenda(tokens: seq<Token>, order: seq<Token>, holder: string, now: int) {
    && DistinctIds(tokens, TokenId)
    && DistinctIds(order, TokenId)
    && SortedByExpiry(order)
    && (forall t :: t in order ==> t in tokens && t.holder == holder && t.expiresAt > now)
  }

  /** Rest of the agenda: it does not name the first token's id. */
  lemma AgendaTail(tokens: seq<Token>, order: seq<Token>, holder: string, now: int)
    requires Agenda(tokens, order, holder, now) && order != []
    ensures DistinctIds(order[1..], TokenId) && SortedByExpiry(order[1..])
    ensures forall t :: t in order[1..] ==> t in order && t.id != order[0].id
  {
    assert forall k :: 0 <= k < |order[1..]| ==> order[1..][k] == order[k + 1];
    forall t | t in order[1..]
      ensures t.id != order[0].id
    {
      var k :| 0 < k < |order| && order[k] == t;
      assert TokenId(order[0]) != TokenId(order[k]);
    }
  }

  lemma AgendaWithout(tokens: seq<Token>, order: seq<Token>, holder: string, now: int)
    requires Agenda(tokens, order, holder, now) && order != []
    ensures Agenda(Without(tokens, TokenId, order[0].id), order[1..], holder, now)
  {
    AgendaTail(tokens, order, holder, now);
    WithoutKeepsDistinct(tokens, TokenId, order[0].id);
  }

  lemma LateOrder(order: seq<Token>, holder: string, later: int)
    requires SortedByExpiry(order) && forall t :: t in order ==> t.holder == holder
    requires order != [] && order[0].expiresAt > later
    ensures Sum(order, Worth(holder, later)) == Sum(order, Amount)
  {
    assert forall k :: 0 <= k < |order| ==> order[0].expiresAt <= order[k].expiresAt;
    SameSum(order, Worth(holder, later), Amount);
  }

  lemma {:induction false} SameSum(s: seq<Token>, f: Token -> int, g: Token -> int)
    requires forall t :: t in s ==> f(t) == g(t)
    ensures Sum(s, f) == Sum(s, g)
  {
    if s != [] {
      SameSum(s[1..], f, g);
    }
  }

  lemma {:induction false} SumOrder(s: seq<Token>, f: Token -> int, g: Token -> int)
    requires forall t :: t in s ==> f(t) <= g(t)
    ensures Sum(s, f) <= Sum(s, g)
  {
    if s != [] {
      SumOrder(s[1..], f, g);
    }
  }

  function Zero(t: Token): int { 0 }

  lemma {:induction false} SumZero(s: seq<Token>)
    ensures Sum(s, Zero) == 0
  {
    if s != [] {
      SumZero(s[1..]);
    }
  }

  lemma WorthBounds(s: seq<Token>, holder: string, later: int)
    ensures 0 <= Sum(s, Worth(holder, later)) <= Sum(s, Amount)
  {
    SumOrder(s, Worth(holder, later), Amount);
    SumOrder(s, Zero, Worth(holder, later));
    SumZero(s);
  }

  /**
   * `remaining` was to be taken from tokens worth `all`, of which `late` outlive the
   * later time; then `left` is missing, and what is worth `before` is worth `after`.
   */
  ghost predicate Leaves(remaining: int, left: int, before: int, after: int, all: int, late: int) {
    && left == Max(0, remaining - all)
    && after == before - Max(0, remaining - left - (all - late))
  }

  /** A first token of worth `amt`, `amt'` of it outliving the later time, is spent whole. */
  lemma WholeTokenLeaves(remaining: int, left: int, before: int, after: int,
                         all: int, late: int, amt: int, amt': int)
    requires 0 <= amt <= remaining
    requires amt' == 0 || (amt' == amt && late == all)
    requires Leaves(remaining - amt, left, before - amt', after, all, late)
    requires 0 <= late <= all
    ensures Leaves(remaining, left, before, after, amt + all, amt' + late)
  {
  }

  lemma PartTokenLeaves(remaining: int, before: int, all: int, late: int, amt: int, amt': int, kept: int)
    requires 0 <= remaining < amt
    requires (amt' == 0 && kept == 0) || (amt' == amt && late == all && kept == amt - remaining)
    requires 0 <= late <= all
    ensures Leaves(remaining, 0, before, before - amt' + kept, amt + all, amt' + late)
  {
  }

  /** How the first token's share enters the sums over the agenda. */
  lemma FirstToken(order: seq<Token>, holder: string, later: int)
    requires SortedByExpiry(order) && order != []
    requires forall t :: t in order ==> t.holder == holder
    ensures var t, f := order[0], Worth(holder, later);
            && Sum(order, Amount) == t.amount + Sum(order[1..], Amount)
            && Sum(order, f) == f(t) + Sum(order[1..], f)
            && 0 <= Sum(order[1..], f) <= Sum(order[1..], Amount)
            && f(t) == (if t.expiresAt > later then t.amount else 0)
            && (t.expiresAt > later ==> Sum(order[1..], f) == Sum(order[1..], Amount))
  {
    assert order[0] in order;
    WorthBounds(order[1..], holder, later);
    if order[0].expiresAt > later {
      LateOrder(order, holder, later);
    }
  }

  /** A turn of the spend loop. */
  lemma SpendFromTurn(tokens: seq<Token>, order: seq<Token>, remaining: int)
    requires order != [] && remaining > 0
    ensures var t, rest := order[0], order[1..];
            SpendFrom(tokens, order, remaining)
            == if t.amount <= remaining
               then SpendFrom(Without(tokens, TokenId, t.id), rest, remaining - t.amount)
               else SpendFrom(Put(tokens, TokenId, t.(amount := t.amount - remaining)), rest, 0)
  {
  }

  /** The last token visited pays only part of its amount. */
  lemma SpendPartLeaves(tokens: seq<Token>, order: seq<Token>, remaining: int,
                        holder: string, now: int, later: int)
    returns (after: seq<Token>)
    requires Agenda(tokens, order, holder, now) && later >= now
    requires order != [] && 0 < remaining < order[0].amount
    ensures (after, 0) == SpendFrom(tokens, order, remaining)
    ensures DistinctIds(after, TokenId)
    ensures var f := Worth(holder, later);
            Leaves(remaining, 0, Sum(tokens, f), Sum(after, f), Sum(order, Amount), Sum(order, f))
  {
    hide Without, Sum;
    var f := Worth(holder, later);
    var t, rest := order[0], order[1..];
    var t' := t.(amount := t.amount - remaining);
    assert t in order && t in tokens;
    FirstToken(order, holder, later);
    PutKeepsDistinct(tokens, TokenId, t');
    WorthPut(tokens, t, t', f);
    after := Put(tokens, TokenId, t');
    PartTokenLeaves(remaining, Sum(tokens, f), Sum(rest, Amount), Sum(rest, f), t.amount, f(t), f(t'));
  }

  /** What spending down an agenda leaves at a later time. */
  lemma {:induction false} SpendFromLeaves(tokens: seq<Token>, order: seq<Token>, remaining: int,
                                           holder: string, now: int, later: int)
    returns (after: seq<Token>, left: int)
    requires Agenda(tokens, order, holder, now) && remaining >= 0 && later >= now
    ensures (after, left) == SpendFrom(tokens, order, remaining)
    ensures DistinctIds(after, TokenId)
    ensures var f := Worth(holder, later);
            Leaves(remaining, left, Sum(tokens, f), Sum(after, f), Sum(order, Amount), Sum(order, f))
    decreases |order|
  {
    if order == [] || remaining == 0 {
      WorthBounds(order, holder, later);
      after, left := tokens, remaining;
    } else if order[0].amount > remaining {
      hide Sum, Without, DistinctIds, SortedByExpiry;
      after := SpendPartLeaves(tokens, order, remaining, holder, now, later);
      left := 0;
    } else {
      var f := Worth(holder, later);
      var t, rest := order[0], order[1..];
      assert t in order && t in tokens;
      var fewer := Without(tokens, TokenId, t.id);
      AgendaWithout(tokens, order, holder, now);
      SpendFromTurn(tokens, order, remaining);
      hide Sum, Without, DistinctIds, SortedByExpiry, SpendFrom;
      after, left := SpendFromLeaves(fewer, rest, remaining - t.amount, holder, now, later);
      WorthWithout(tokens, t, f);
      FirstToken(order, holder, later);
      WholeTokenLeaves(remaining, left, Sum(tokens, f), Sum(after, f), Sum(rest, Amount), Sum(rest, f), t.amount, f(t));
    }
  }

  // ---- the promises -------------------------------------------------------------------

  /** The agenda of a spend holds the whole live balance, and what of it lives on. */
  lemma LiveOrder(tokens: seq<Token>, holder: string, now: int, later: int)
    requires DistinctIds(tokens, TokenId) && later >= now
    ensures var order := SortByExpiry(Filter(tokens, Live(holder, now)));
            && Agenda(tokens, order, holder, now)
            && Sum(order, Amount) == Balance(tokens, holder, now)
            && Sum(order, Worth(holder, later)) == Balance(tokens, holder, later)
  {
    var live := Filter(tokens, Live(holder, now));
    FilterDistinct(tokens, Live(holder, now));
    SortDistinct(live);
    SortFacts(live, Amount);
    SortFacts(live, Worth(holder, later));
    BalanceIsWorth(tokens, holder, later);
    SumFiltered(tokens, Live(holder, now), Worth(holder, later));
  }

  lemma {:induction false} SumFiltered(s: seq<Token>, p: Token -> bool, f: Token -> int)
    requires forall t :: t in s && !p(t) ==> f(t) == 0
    ensures Sum(Filter(s, p), f) == Sum(s, f)
  {
    if s != [] {
      SumFiltered(s[1..], p, f);
      if p(s[0]) {
        assert Filter(s, p)[1..] == Filter(s[1..], p);
      }
    }
  }

  function Taken(balance: int, amount: int): int { Max(0, Min(amount, balance)) }

  /**
   * A spend takes min(amount, live balance), and of that only what could not be taken
   * from tokens expiring earlier is missed at any later time.
   */
  lemma SpendLeavesBalance(tokens: seq<Token>, holder: string, amount: int, now: int, later: int)
    requires DistinctIds(tokens, TokenId) && later >= now
    ensures var (after, outcome) := Spend(tokens, holder, amount, now);
            var taken := Taken(Balance(tokens, holder, now), amount);
            var expiring := Balance(tokens, holder, now) - Balance(tokens, holder, later);
            && DistinctIds(after, TokenId)
            && outcome == (if taken == 0 then InsufficientTokens
                           else Spent(taken, Balance(tokens, holder, now) - taken))
            && Balance(after, holder, later) == Balance(tokens, holder, later) - Max(0, taken - expiring)
  {
    hide Filter, Sum, SortByExpiry, SpendFrom, Balance, DistinctIds;
    SpendLeavesAt(tokens, holder, amount, now, later);
    SpendLeavesAt(tokens, holder, amount, now, now);
    BalanceBounds(tokens, holder, now, later);
  }

  lemma BalanceBounds(tokens: seq<Token>, holder: string, now: int, later: int)
    requires later >= now
    ensures 0 <= Balance(tokens, holder, later) <= Balance(tokens, holder, now)
  {
    BalanceIsWorth(tokens, holder, now);
    BalanceIsWorth(tokens, holder, later);
    SumOrder(tokens, Worth(holder, later), Worth(holder, now));
    WorthBounds(tokens, holder, later);
  }

  lemma SpendLeavesAt(tokens: seq<Token>, holder: string, amount: int, now: int, later: int)
    requires DistinctIds(tokens, TokenId) && later >= now
    ensures var order := SortByExpiry(Filter(tokens, Live(holder, now)));
            var (after, left) := SpendFrom(tokens, order, amount);
            && DistinctIds(after, TokenId)
            && if amount <= 0 then left == amount && after == tokens
               else Leaves(amount, left, Balance(tokens, holder, later), Balance(after, holder, later),
                           Balance(tokens, holder, now), Balance(tokens, holder, later))
  {
    var order := SortByExpiry(Filter(tokens, Live(holder, now)));
    LiveOrder(tokens, holder, now, later);
    if amount > 0 {
      var after, left := SpendFromLeaves(tokens, order, amount, holder, now, later);
      BalanceIsWorth(tokens, holder, later);
      BalanceIsWorth(after, holder, later);
    }
  }

  /** Some way of taking `takes[i]` from the i-th token. */
  function Reduced(tokens: seq<Token>, takes: seq<nat>): (r: seq<Token>)
    requires |takes| == |tokens|
    requires forall i :: 0 <= i < |tokens| ==> takes[i] <= tokens[i].amount
    ensures |r| == |tokens|
  {
    if tokens == [] then []
    else [tokens[0].(amount := tokens[0].amount - takes[0])] + Reduced(tokens[1..], takes[1..])
  }

  function Total(takes: seq<nat>): nat {
    if takes == [] then 0 else takes[0] + Total(takes[1..])
  }

  lemma {:induction false} ReducedWorth(tokens: seq<Token>, takes: seq<nat>, holder: string, now: int, later: int)
    requires |takes| == |tokens| && later >= now
    requires forall i :: 0 <= i < |tokens| ==> takes[i] <= tokens[i].amount
    requires forall i :: 0 <= i < |tokens| && takes[i] > 0 ==> Live(holder, now)(tokens[i])
    ensures Sum(Reduced(tokens, takes), Worth(holder, later)) <= Sum(tokens, Worth(holder, later))
    ensures Sum(Reduced(tokens, takes), Worth(holder, later)) <= Sum(tokens, Worth(holder, now)) - Total(takes)
  {
    if tokens != [] {
      assert Live(holder, now)(tokens[0]) || takes[0] == 0;
      var r := Reduced(tokens[1..], takes[1..]);
      ReducedWorth(tokens[1..], takes[1..], holder, now, later);
      assert Reduced(tokens, takes)[1..] == r;
    }
  }

  /**
   * No other way of taking the same total from the holder's live tokens leaves more at
   * any later time.
   */
  lemma SpendIsOptimal(tokens: seq<Token>, holder: string, amount: int, now: int, later: int, takes: seq<nat>)
    requires DistinctIds(tokens, TokenId) && later >= now
    requires |takes| == |tokens|
    requires forall i :: 0 <= i < |tokens| ==> takes[i] <= tokens[i].amount
    requires forall i :: 0 <= i < |tokens| && takes[i] > 0 ==> Live(holder, now)(tokens[i])
    requires Total(takes) == Taken(Balance(tokens, holder, now), amount)
    ensures Balance(Spend(tokens, holder, amount, now).0, holder, later)
            >= Balance(Reduced(tokens, takes), holder, later)
  {
    SpendLeavesBalance(tokens, holder, amount, now, later);
    ReducedWorth(tokens, takes, holder, now, later);
    BalanceIsWorth(Reduced(tokens, takes), holder, later);
    BalanceIsWorth(tokens, holder, later);
    BalanceIsWorth(tokens, holder, now);
  }

  /** What a spend may do to a stored token: nothing, unless it is live; then only lower its amount. */
  ghost predicate Touches(tokens: seq<Token>, after: seq<Token>, holder: string, now: int) {
    && Filter(after, NotLive(holder, now)) == Filter(tokens, NotLive(holder, now))
    && forall t' :: t' in after ==> exists t :: t in tokens && Lowered(t, t')
  }

  predicate Lowered(t: Token, t': Token) {
    t' == t.(amount := t'.amount) && t'.amount <= t.amount
  }

  lemma TouchesItself(tokens: seq<Token>, holder: string, now: int)
    ensures Touches(tokens, tokens, holder, now)
  {
    assert forall t :: t in tokens ==> Lowered(t, t);
  }

  lemma TouchesChain(tokens: seq<Token>, middle: seq<Token>, after: seq<Token>, holder: string, now: int)
    requires Touches(tokens, middle, holder, now) && Touches(middle, after, holder, now)
    ensures Touches(tokens, after, holder, now)
  {
    forall t' | t' in after
      ensures exists t :: t in tokens && Lowered(t, t')
    {
      var m :| m in middle && Lowered(m, t');
      var t :| t in tokens && Lowered(t, m);
      assert Lowered(t, t');
    }
  }

  lemma TouchesWithout(tokens: seq<Token>, t: Token, holder: string, now: int)
    requires DistinctIds(tokens, TokenId) && t in tokens && Live(holder, now)(t)
    ensures Touches(tokens, Without(tokens, TokenId, t.id), holder, now)
  {
    var k :| 0 <= k < |tokens| && tokens[k] == t;
    IndexIsUnique(tokens, TokenId, k);
    FilterWithout(tokens, TokenId, t.id, NotLive(holder, now));
    WithoutKeepsDistinct(tokens, TokenId, t.id);
    assert forall x :: x in tokens ==> Lowered(x, x);
  }

  lemma TouchesPut(tokens: seq<Token>, t: Token, t': Token, holder: string, now: int)
    requires DistinctIds(tokens, TokenId) && t in tokens && Live(holder, now)(t) && Lowered(t, t')
    ensures Touches(tokens, Put(tokens, TokenId, t'), holder, now)
  {
    var k :| 0 <= k < |tokens| && tokens[k] == t;
    IndexIsUnique(tokens, TokenId, k);
    FilterPut(tokens, TokenId, t', NotLive(holder, now));
    assert forall x :: x in tokens ==> Lowered(x, x);
    var after := Put(tokens, TokenId, t');
    assert after == tokens[k := t'];
    forall x | x in after
      ensures exists y :: y in tokens && Lowered(y, x)
    {
      if x == t' {
        assert Lowered(t, x);
      } else {
        assert x in tokens;
      }
    }
  }

  lemma {:induction false} SpendFromTouches(tokens: seq<Token>, order: seq<Token>, remaining: int,
                                            holder: string, now: int)
    requires Agenda(tokens, order, holder, now)
    ensures Touches(tokens, SpendFrom(tokens, order, remaining).0, holder, now)
    decreases |order|
  {
    hide Without, DistinctIds, SortedByExpiry, Touches;
    if order == [] || remaining <= 0 {
      TouchesItself(tokens, holder, now);
    } else {
      var t := order[0];
      assert t in order;
      if t.amount <= remaining {
        var fewer := Without(tokens, TokenId, t.id);
        AgendaWithout(tokens, order, holder, now);
        TouchesWithout(tokens, t, holder, now);
        SpendFromTouches(fewer, order[1..], remaining - t.amount, holder, now);
        TouchesChain(tokens, fewer, SpendFrom(tokens, order, remaining).0, holder, now);
      } else {
        TouchesPut(tokens, t, t.(amount := t.amount - remaining), holder, now);
      }
    }
  }

  /** A spend touches no other holder's and no expired token. */
  lemma SpendTouchesOnlyLive(tokens: seq<Token>, holder: string, amount: int, now: int)
    requires DistinctIds(tokens, TokenId)
    ensures Touches(tokens, Spend(tokens, holder, amount, now).0, holder, now)
  {
    LiveOrder(tokens, holder, now, now);
    SpendFromTouches(tokens, SortByExpiry(Filter(tokens, Live(holder, now))), amount, holder, now);
  }

  // ---- what a spend takes, token by token ----------------------------------------------

  function ExpiresAt(time: int): Token -> bool { (t: Token) => t.expiresAt == time }

  lemma {:induction false} InsertIsStable(t: Token, s: seq<Token>, time: int)
    ensures Filter(InsertByExpiry(t, s), ExpiresAt(time)) == Filter([t] + s, ExpiresAt(time))
  {
    var p := ExpiresAt(time);
    assert ([t] + s)[1..] == s;
    if !(s == [] || t.expiresAt <= s[0].expiresAt) {
      var tail := InsertByExpiry(t, s[1..]);
      InsertIsStable(t, s[1..], time);
      assert ([s[0]] + tail)[1..] == tail;
      assert ([t] + s[1..])[1..] == s[1..];
      hide InsertByExpiry;
      assert Filter(InsertByExpiry(t, s), p) == (if p(s[0]) then [s[0]] else []) + Filter([t] + s[1..], p);
    }
  }

  /** Tokens that expire together are visited in the order in which they are stored. */
  lemma {:induction false} SortIsStable(s: seq<Token>, time: int)
    ensures Filter(SortByExpiry(s), ExpiresAt(time)) == Filter(s, ExpiresAt(time))
  {
    if s != [] {
      var sorted := SortByExpiry(s[1..]);
      SortIsStable(s[1..], time);
      InsertIsStable(s[0], sorted, time);
      assert ([s[0]] + sorted)[1..] == sorted;
    }
  }

  /** Who is visited at turn `i` with `left` to pay stays, is removed, or pays the rest. */
  ghost predicate Pays(after: seq<Token>, t: Token, left: int) {
    if left <= 0 then t in after
    else if t.amount <= left then forall x :: x in after ==> x.id != t.id
    else t.(amount := t.amount - left) in after
  }

  /** What the tokens before turn `i` amount to. */
  lemma PaidBefore(order: seq<Token>, i: nat)
    requires i < |order|
    ensures if i == 0 then Sum(order[..i], Amount) == 0
            else Sum(order[..i], Amount) == order[0].amount + Sum(order[1..][..i - 1], Amount)
    ensures i > 0 ==> Sum(order[..i], Amount) >= order[0].amount
  {
    if i == 0 {
      assert order[..0] == [];
    } else {
      assert order[..i][1..] == order[1..][..i - 1] && order[..i][0] == order[0];
      AmountsNonNegative(order[1..][..i - 1]);
    }
  }

  /** A token of the agenda is stored, and under another id than the first, unless it is that. */
  lemma OnAgenda(tokens: seq<Token>, order: seq<Token>, holder: string, now: int, i: nat)
    requires Agenda(tokens, order, holder, now) && i < |order|
    ensures order[i] in tokens && (i > 0 ==> order[i].id != order[0].id)
  {
    assert order[i] in order;
    assert i > 0 ==> TokenId(order[0]) != TokenId(order[i]);
  }

  lemma {:induction false} TakenInOrder(tokens: seq<Token>, order: seq<Token>, remaining: int,
                                        holder: string, now: int, i: nat)
    requires Agenda(tokens, order, holder, now) && i < |order|
    ensures Pays(SpendFrom(tokens, order, remaining).0, order[i], remaining - Sum(order[..i], Amount))
    decreases |order|
  {
    hide Agenda, DistinctIds, Without, SpendFrom, Sum;
    var t := order[0];
    OnAgenda(tokens, order, holder, now, i);
    AmountsNonNegative(order[..i]);
    PaidBefore(order, i);
    if remaining <= 0 {
      SpendFromDone(tokens, order, remaining);
    } else {
      SpendFromTurn(tokens, order, remaining);
      if t.amount > remaining {
        PartIsLast(tokens, order, remaining, holder, now, i);
      } else {
        AgendaWithout(tokens, order, holder, now);
        if i == 0 {
          StoredOnce(tokens, order, holder, now);
          GoneStaysGone(tokens, t.id, order[1..], remaining - t.amount, holder, now);
        } else {
          TakenInOrder(Without(tokens, TokenId, t.id), order[1..], remaining - t.amount, holder, now, i - 1);
        }
      }
    }
  }

  lemma StoredOnce(tokens: seq<Token>, order: seq<Token>, holder: string, now: int)
    requires Agenda(tokens, order, holder, now)
    ensures DistinctIds(tokens, TokenId)
  {
  }

  lemma AmountsNonNegative(s: seq<Token>)
    ensures Sum(s, Amount) >= 0
  {
    SumOrder(s, Zero, Amount);
    SumZero(s);
  }

  /** A removed token does not come back. */
  lemma GoneStaysGone(tokens: seq<Token>, id: string, rest: seq<Token>, remaining: int, holder: string, now: int)
    requires DistinctIds(tokens, TokenId) && Agenda(Without(tokens, TokenId, id), rest, holder, now)
    ensures forall x :: x in SpendFrom(Without(tokens, TokenId, id), rest, remaining).0 ==> x.id != id
  {
    WithoutKeepsDistinct(tokens, TokenId, id);
    hide DistinctIds, Without, SpendFrom;
    SpendFromTouches(Without(tokens, TokenId, id), rest, remaining, holder, now);
    var fewer, after := Without(tokens, TokenId, id), SpendFrom(Without(tokens, TokenId, id), rest, remaining).0;
    forall x | x in after
      ensures x.id != id
    {
      var t :| t in fewer && Lowered(t, x);
      assert TokenId(t) != id;
    }
  }

  /** The token that pays in part is the last to pay. */
  lemma PartIsLast(tokens: seq<Token>, order: seq<Token>, remaining: int, holder: string, now: int, i: nat)
    requires Agenda(tokens, order, holder, now) && i < |order| && 0 < remaining < order[0].amount
    ensures Pays(SpendFrom(tokens, order, remaining).0, order[i], remaining - Sum(order[..i], Amount))
  {
    hide Agenda, DistinctIds, SpendFrom, Sum, Put;
    var t' := order[0].(amount := order[0].amount - remaining);
    StoredOnce(tokens, order, holder, now);
    OnAgenda(tokens, order, holder, now, i);
    PaidBefore(order, i);
    SpendFromTurn(tokens, order, remaining);
    SpendFromDone(Put(tokens, TokenId, t'), order[1..], 0);
    PutMembers(tokens, TokenId, t');
    assert i > 0 ==> TokenId(order[i]) != TokenId(t');
  }

  /**
   * A spend takes the live tokens in order: each that comes after the amount is paid stays, each
   * that fits into what is left to pay goes, and the one that does not pays just that.
   */
  lemma SpendTakesInOrder(tokens: seq<Token>, holder: string, amount: int, now: int, i: nat)
    requires DistinctIds(tokens, TokenId)
    requires i < |SortByExpiry(Filter(tokens, Live(holder, now)))|
    ensures var order := SortByExpiry(Filter(tokens, Live(holder, now)));
            Pays(Spend(tokens, holder, amount, now).0, order[i], amount - Sum(order[..i], Amount))
  {
    hide DistinctIds, SpendFrom, Sum, Filter, SortByExpiry, Balance, Pays, Agenda;
    LiveOrder(tokens, holder, now, now);
    TakenInOrder(tokens, SortByExpiry(Filter(tokens, Live(holder, now))), amount, holder, now, i);
  }

  // ---- a spend that fails --------------------------------------------------------------

  /** No token of the agenda has the id of `x`. */
  ghost predicate Unnamed(order: seq<Token>, x: Token) {
    forall t :: t in order ==> t.id != x.id
  }

  lemma UnnamedNext(order: seq<Token>, x: Token)
    requires order != []
    ensures Unnamed(order, x) <==> x.id != order[0].id && Unnamed(order[1..], x)
  {
    assert order == [order[0]] + order[1..];
  }

  lemma ZeroTail(order: seq<Token>)
    requires order != [] && forall t :: t in order ==> t.amount == 0
    ensures order[0].amount == 0 && forall t :: t in order[1..] ==> t.amount == 0
  {
    assert order == [order[0]] + order[1..];
    assert order[0] in order;
  }

  /** Visiting tokens of amount zero removes every one of them, and nothing else. */
  lemma {:induction false} ZerosAreRemoved(tokens: seq<Token>, order: seq<Token>, remaining: int,
                                           holder: string, now: int)
    requires Agenda(tokens, order, holder, now) && remaining > 0
    requires forall t :: t in order ==> t.amount == 0
    ensures var after := SpendFrom(tokens, order, remaining).0;
            forall x :: x in after <==> x in tokens && Unnamed(order, x)
    decreases |order|
  {
    if order != [] {
      var t, fewer, rest := order[0], Without(tokens, TokenId, order[0].id), order[1..];
      ZeroTail(order);
      SpendFromTurn(tokens, order, remaining);
      AgendaWithout(tokens, order, holder, now);
      WithoutKeepsDistinct(tokens, TokenId, t.id);
      hide DistinctIds, Agenda, Without, SpendFrom, Unnamed;
      ZerosAreRemoved(fewer, rest, remaining, holder, now);
      forall x
        ensures x in SpendFrom(tokens, order, remaining).0 <==> x in tokens && Unnamed(order, x)
      {
        UnnamedNext(order, x);
        assert x in fewer <==> x in tokens && TokenId(x) != t.id;
      }
    }
  }

  /** Amounts that sum to nothing are all zero. */
  lemma {:induction false} NoAmounts(s: seq<Token>)
    requires Sum(s, Amount) <= 0
    ensures forall t :: t in s ==> t.amount == 0
  {
    if s != [] {
      WorthlessTail(s);
      NoAmounts(s[1..]);
      assert s == [s[0]] + s[1..];
    }
  }

  lemma WorthlessTail(s: seq<Token>)
    requires s != [] && Sum(s, Amount) <= 0
    ensures s[0].amount == 0 && Sum(s[1..], Amount) <= 0
  {
    SumOrder(s[1..], Zero, Amount);
    SumZero(s[1..]);
  }

  /** A failed spend of a positive amount removes every live token: all have amount zero. */
  lemma FailedSpendLeaves(tokens: seq<Token>, holder: string, amount: int, now: int)
    requires DistinctIds(tokens, TokenId)
    requires Spend(tokens, holder, amount, now).1.InsufficientTokens?
    ensures Spend(tokens, holder, amount, now).0
            == if amount <= 0 then tokens else Filter(tokens, NotLive(holder, now))
  {
    var live := Filter(tokens, Live(holder, now));
    var order, after := SortByExpiry(live), Spend(tokens, holder, amount, now).0;
    SpendLeavesBalance(tokens, holder, amount, now, now);
    LiveOrder(tokens, holder, now, now);
    if amount > 0 {
      NoAmounts(order);
      SortFacts(live, Amount);
      ZerosAreRemoved(tokens, order, amount, holder, now);
      assert forall x :: x in after ==> x !in order;
      SpendTouchesOnlyLive(tokens, holder, amount, now);
      FilterAll(after, NotLive(holder, now));
    }
  }

  /** A failed spend changes nothing exactly when nothing was asked for or nothing is live. */
  lemma FailedSpendChangesNothingIff(tokens: seq<Token>, holder: string, amount: int, now: int)
    requires DistinctIds(tokens, TokenId)
    requires Spend(tokens, holder, amount, now).1.InsufficientTokens?
    ensures Spend(tokens, holder, amount, now).0 == tokens
            <==> amount <= 0 || Filter(tokens, Live(holder, now)) == []
  {
    hide Spend;
    FailedSpendLeaves(tokens, holder, amount, now);
    var live, others := Filter(tokens, Live(holder, now)), Filter(tokens, NotLive(holder, now));
    if live == [] {
      forall t | t in tokens
        ensures NotLive(holder, now)(t)
      {
        assert t !in live;
      }
      FilterAll(tokens, NotLive(holder, now));
    } else {
      assert live[0] in live && live[0] !in others;
    }
  }

  /** An input: the spend of 1 fails, and the token of amount 0 is gone. */
  lemma FailedSpendMayRemove()
    ensures Spend([Token("t", "a", 0, 0, 10)], "a", 1, 0) == ([], InsufficientTokens)
  {
    var tokens := [Token("t", "a", 0, 0, 10)];
    assert DistinctIds(tokens, TokenId);
    FilterAll(tokens, Live("a", 0));
    FilterNone(tokens, NotLive("a", 0));
    SpendLeavesBalance(tokens, "a", 1, 0, 0);
    assert Balance(tokens, "a", 0) == Sum(tokens, Amount) == 0;
    FailedSpendLeaves(tokens, "a", 1, 0);
  }

  // ---- the handlers --------------------------------------------------------------------

  /** Where a token goes in a list sorted by expiry. */
  function InsertAt(t: Token, s: seq<Token>): (j: nat)
    ensures j <= |s|
    ensures forall k :: 0 <= k < j ==> s[k].expiresAt < t.expiresAt
    ensures j < |s| ==> t.expiresAt <= s[j].expiresAt
  {
    if s == [] || t.expiresAt <= s[0].expiresAt then 0
    else
      var j := InsertAt(t, s[1..]);
      assert forall k :: 0 <= k < |s[1..]| ==> s[1..][k] == s[k + 1];
      j + 1
  }

  lemma {:induction false} InsertedThere(t: Token, s: seq<Token>)
    ensures InsertByExpiry(t, s) == InsertSeq(s, InsertAt(t, s), t)
  {
    if !(s == [] || t.expiresAt <= s[0].expiresAt) {
      InsertedThere(t, s[1..]);
      InsertSeqTail(s, InsertAt(t, s[1..]), t);
    }
  }

  lemma InsertAtIsUnique(t: Token, s: seq<Token>, j: nat)
    requires SortedByExpiry(s) && j <= |s|
    requires forall k :: 0 <= k < j ==> s[k].expiresAt < t.expiresAt
    requires j < |s| ==> t.expiresAt <= s[j].expiresAt
    ensures j == InsertAt(t, s)
  {
  }

  method InsertRef(order: seq<Ref<Token>>, r: Ref<Token>, ghost sorted: seq<Token>)
    returns (longer: seq<Ref<Token>>)
    requires Shows(order, sorted) && SortedByExpiry(sorted)
    ensures Shows(longer, InsertByExpiry(r.it, sorted))
    ensures forall x :: x in longer ==> x == r || x in order
  {
    var j := 0;
    while j < |order| && order[j].it.expiresAt < r.it.expiresAt
      invariant 0 <= j <= |order|
      invariant forall k :: 0 <= k < j ==> sorted[k].expiresAt < r.it.expiresAt
    {
      j := j + 1;
    }
    InsertAtIsUnique(r.it, sorted, j);
    InsertedThere(r.it, sorted);
    longer := InsertSeq(order, j, r);
  }

  /** `Array.sort` by expiry on references. */
  method SortRefs(found: seq<Ref<Token>>, ghost live: seq<Token>) returns (order: seq<Ref<Token>>)
    requires Shows(found, live)
    ensures Shows(order, SortByExpiry(live))
    ensures forall r :: r in order ==> r in found
  {
    order := [];
    var i := |found|;
    while i > 0
      invariant 0 <= i <= |found|
      invariant Shows(order, SortByExpiry(live[i..]))
      invariant forall r :: r in order ==> r in found
    {
      i := i - 1;
      assert live[i..][1..] == live[i + 1..];
      SortFacts(live[i + 1..], Amount);
      order := InsertRef(order, found[i], SortByExpiry(live[i + 1..]));
    }
    assert live[0..] == live;
  }

  lemma SpendFromDone(tokens: seq<Token>, order: seq<Token>, remaining: int)
    requires order == [] || remaining <= 0
    ensures SpendFrom(tokens, order, remaining) == (tokens, remaining)
  {
  }

  class Economy {
    const tokens: JsonStore<Token>

    ghost predicate Valid()
      reads this, tokens, tokens.items
    {
      tokens.idOf == TokenId && tokens.Valid()
    }

    constructor ()
      ensures Valid() && fresh(tokens) && tokens.contents == []
    {
      tokens := new JsonStore(TokenId);
    }

    method GetAttentionBalance(holder: string, now: int) returns (balance: int)
      requires Valid()
      ensures balance == Balance(tokens.contents, holder, now)
    {
      var found := tokens.Filter(Live(holder, now));
      ghost var live := Filter(tokens.contents, Live(holder, now));
      balance := 0;
      var i := 0;
      while i < |found|
        invariant 0 <= i <= |found|
        invariant balance + Sum(live[i..], Amount) == Sum(live, Amount)
      {
        assert live[i..][1..] == live[i + 1..];
        balance := balance + found[i].it.amount;
        i := i + 1;
      }
      assert live[|found|..] == [];
    }

    /** The references still to visit are stored, and their records form an agenda. */
    ghost predicate Visiting(order: seq<Ref<Token>>, agenda: seq<Token>, holder: string, now: int)
      reads this, tokens, tokens.items, order
    {
      && Shows(order, agenda)
      && (forall r :: r in order ==> r in tokens.items)
      && Agenda(tokens.contents, agenda, holder, now)
    }

    /** A turn of the spend loop on a token that is spent whole. */
    method PayWhole(order: seq<Ref<Token>>, ghost agenda: seq<Token>, ghost holder: string, ghost now: int)
      requires Valid() && Visiting(order, agenda, holder, now) && order != []
      modifies tokens
      ensures Valid()
      ensures tokens.contents == Without(old(tokens.contents), TokenId, agenda[0].id)
      ensures Visiting(order[1..], agenda[1..], holder, now)
      ensures forall r :: r in tokens.items ==> r in old(tokens.items)
    {
      var token := order[0];
      AgendaWithout(tokens.contents, agenda, holder, now);
      AgendaTail(tokens.contents, agenda, holder, now);
      forall k | 0 <= k < |order[1..]|
        ensures order[1..][k].it.id != token.it.id
      {
        assert agenda[1..][k] in agenda[1..];
      }
      var _ := tokens.Remove(token.it.id);
    }

    /** A turn of the spend loop on a token that is spent in part; it is the last one. */
    method PayPart(token: Ref<Token>, remaining: int)
      requires Valid() && token in tokens.items && 0 <= remaining < token.it.amount
      modifies tokens, token
      ensures Valid()
      ensures tokens.contents
              == Put(old(tokens.contents), TokenId, old(token.it).(amount := old(token.it.amount) - remaining))
      ensures tokens.items == old(tokens.items)
    {
      token.it := token.it.(amount := token.it.amount - remaining);
      tokens.Add(token);
    }

    /** The spend loop. */
    method SpendInOrder(order: seq<Ref<Token>>, amount: int, ghost agenda: seq<Token>,
                        ghost holder: string, ghost now: int) returns (remaining: int)
      requires Valid() && Visiting(order, agenda, holder, now)
      modifies tokens, tokens.items
      ensures Valid()
      ensures (tokens.contents, remaining) == SpendFrom(old(tokens.contents), agenda, amount)
    {
      hide Filter, Sum, SortByExpiry, SpendFrom, Agenda, Put, Without, JsonStores.DistinctIds;
      var queue := order;
      ghost var rest := agenda;
      remaining := amount;
      while queue != [] && remaining > 0
        invariant Valid()
        invariant |queue| == |rest|
        invariant SpendFrom(tokens.contents, rest, remaining) == SpendFrom(old(tokens.contents), agenda, amount)
        invariant remaining > 0 ==> Visiting(queue, rest, holder, now)
        invariant forall r :: r in tokens.items ==> r in old(tokens.items)
        decreases |queue|
      {
        var token := queue[0];
        assert token.it == rest[0];
        assert token in queue && token in old(tokens.items);
        SpendFromTurn(tokens.contents, rest, remaining);
        if token.it.amount <= remaining {
          remaining := remaining - token.it.amount;
          PayWhole(queue, rest, holder, now);
        } else {
          PayPart(token, remaining);
          remaining := 0;
        }
        queue, rest := queue[1..], rest[1..];
      }
      SpendFromDone(tokens.contents, rest, remaining);
    }

    /** The holder's live tokens, first to expire first. */
    method LiveByExpiry(holder: string, now: int) returns (order: seq<Ref<Token>>)
      requires Valid()
      ensures Visiting(order, SortByExpiry(Filter(tokens.contents, Live(holder, now))), holder, now)
    {
      var found := tokens.Filter(Live(holder, now));
      order := SortRefs(found, Filter(tokens.contents, Live(holder, now)));
      LiveOrder(tokens.contents, holder, now, now);
    }

    method SpendAttentionTokens(holder: string, amount: int, now: int) returns (outcome: Outcome)
      requires Valid()
      modifies tokens, tokens.items
      ensures Valid()
      ensures (tokens.contents, outcome) == Spend(old(tokens.contents), holder, amount, now)
    {
      hide Filter, Sum, SortByExpiry, SpendFrom, Balance, JsonStores.IndexOfId;
      ghost var was := tokens.contents;
      ghost var agenda := SortByExpiry(Filter(was, Live(holder, now)));
      var order := LiveByExpiry(holder, now);
      var remaining := SpendInOrder(order, amount, agenda, holder, now);
      ghost var after := tokens.contents;
      assert (after, remaining) == SpendFrom(was, agenda, amount);
      var spent := amount - remaining;
      if spent == 0 {
        return InsufficientTokens;
      }
      var balance := GetAttentionBalance(holder, now);
      outcome := Spent(spent, balance);
    }
  }
}
