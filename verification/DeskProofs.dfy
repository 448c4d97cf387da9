/** Which messages are handed out, in which order and how often, by packet numbers alone. */
module DeskProofs {
  import opened Lists
  import opened FragmentSpec
  import opened Delivery
  import opened ReassemblyProofs
  import Runs = ReceiverRuns

  // ---- packet numbers and items ----

  lemma SizePositive(item: Item)
    requires item.body != []
    ensures Size(item) >= 1
  {
    ChunksJoin(item.body);
  }

  lemma {:induction false} FirstGrows(items: seq<Item>, i: nat, j: nat)
    requires i <= j <= |items|
    ensures First(items, i) <= First(items, j)
    ensures Proper(items) && i < j ==> First(items, i) < First(items, j)
    decreases j - i
  {
    if i < j {
      FirstGrows(items, i, j - 1);
      if Proper(items) { SizePositive(items[j - 1]); }
    }
  }

  lemma {:induction false} OwnerBelowIs(items: seq<Item>, n: int, j: nat)
    requires j <= |items| && 1 <= n < First(items, j)
    ensures Of(items, OwnerBelow(items, n, j), n)
    decreases j
  {
    if j > 0 && First(items, j - 1) > n { OwnerBelowIs(items, n, j - 1); }
  }

  lemma {:induction false} OneOwner(items: seq<Item>, i: int, j: int, n: int)
    requires Of(items, i, n) && Of(items, j, n)
    ensures i == j
  {
    if i < j { FirstGrows(items, i + 1, j); }
    if j < i { FirstGrows(items, j + 1, i); }
  }

  lemma {:induction false} Apart(items: seq<Item>, i: nat, j: nat)
    requires i < |items| && j < |items| && i != j
    ensures PacketsOf(items, i) !! PacketsOf(items, j)
  {
    if n :| n in PacketsOf(items, i) && n in PacketsOf(items, j) { OneOwner(items, i, j, n); }
  }

  lemma {:induction false} OwnerIs(items: seq<Item>, j: int, n: int)
    requires Of(items, j, n)
    ensures Owner(items, n) == j
  {
    FirstGrows(items, j + 1, |items|);
    FirstGrows(items, 0, j);
    OwnerBelowIs(items, n, |items|);
    OneOwner(items, j, Owner(items, n), n);
  }

  // ---- what moves are possible ----

  /** A packet exists when it arrives, and is taken after it arrived and only once. */
  ghost predicate Causal(items: seq<Item>, moves: seq<Move>) {
    moves == [] ||
    (var before := moves[..|moves| - 1];
     Causal(items, before) &&
     match moves[|moves| - 1]
     case In(n) => 1 <= n <= Total(items)
     case Out(n) => n in Ins(before) && n !in Outs(before))
  }

  lemma {:induction false} OwnerOf(items: seq<Item>, n: int)
    requires 1 <= n <= Total(items)
    ensures Of(items, Owner(items, n), n)
  {
    OwnerBelowIs(items, n, |items|);
  }

  lemma {:induction false} InsAppend(moves: seq<Move>, more: seq<Move>)
    ensures Ins(moves + more) == Ins(moves) + Ins(more)
    decreases more
  {
    if more == [] {
      assert moves + more == moves;
    } else {
      var rest := more[..|more| - 1];
      InsAppend(moves, rest);
      assert (moves + more)[..|moves + more| - 1] == moves + rest;
    }
  }

  lemma InsMore(moves: seq<Move>, move: Move)
    ensures Ins(moves + [move]) == Ins(moves) + if move.In? then {move.n} else {}
  {
    assert (moves + [move])[..|moves|] == moves;
  }

  lemma {:induction false} InsExist(items: seq<Item>, moves: seq<Move>, n: int)
    requires Causal(items, moves) && n in Ins(moves)
    ensures 1 <= n <= Total(items)
    decreases moves
  {
    var before, last := moves[..|moves| - 1], moves[|moves| - 1];
    assert moves == before + [last];
    if n in Ins(before) { InsExist(items, before, n); }
  }

  lemma {:induction false} OutsAreMoves(moves: seq<Move>, n: int)
    ensures n in Outs(moves) <==> Out(n) in moves
    decreases moves
  {
    if moves != [] {
      var before := moves[..|moves| - 1];
      assert moves == before + [moves[|moves| - 1]];
      OutsAreMoves(before, n);
    }
  }

  // ---- once ----

  /** The last move that handed out item `j`, or -1. */
  function LastHanded(items: seq<Item>, moves: seq<Move>, j: nat): int {
    if moves == [] then -1
    else
      var before, last := moves[..|moves| - 1], moves[|moves| - 1];
      if last.Out? && Owner(items, last.n) == j && HandsOut(items, DeskRun(items, before), last.n) then |moves| - 1
      else LastHanded(items, before, j)
  }

  /** The packets that arrive before move `h`, and those that arrive after it. */
  function Earlier(moves: seq<Move>, h: int): set<int>
    requires -1 <= h < |moves|
  {
    if h < 0 then {} else Ins(moves[..h])
  }

  function Later(moves: seq<Move>, h: int): set<int>
    requires -1 <= h < |moves|
  {
    Ins(moves[h + 1..])
  }

  predicate SameWithin(packets: set<int>, a: set<int>, b: set<int>) {
    forall n :: n in packets ==> (n in a <==> n in b)
  }

  lemma WithinAll(packets: set<int>, a: set<int>, b: set<int>)
    requires SameWithin(packets, a, b)
    ensures packets <= a <==> packets <= b
  {
    if packets <= a { forall n | n in packets ensures n in b {} }
    if packets <= b { forall n | n in packets ensures n in a {} }
  }

  lemma WithinBoth(packets: set<int>, a: set<int>, b: set<int>, m: int)
    requires SameWithin(packets, a, b)
    ensures SameWithin(packets, a + {m}, b + {m})
  {
  }

  /** What the desk `d` knows of item `j`, which has the given packets: whether it is in the log, and which
      packets arrived since it was handed out last. */
  ghost predicate Knows(packets: set<int>, split: bool, d: Desk, j: nat, handed: bool, earlier: set<int>,
                        later: set<int>) {
    && (j in d.log <==> handed) && SameWithin(packets, d.recent, later) && (handed && split ==> packets <= earlier)
  }

  lemma LaterGrows(before: seq<Move>, h: int, move: Move)
    requires -1 <= h < |before|
    ensures Later(before + [move], h) == Later(before, h) + if move.In? then {move.n} else {}
    ensures Earlier(before + [move], h) == Earlier(before, h)
  {
    var moves, tail := before + [move], before[h + 1..];
    assert moves[h + 1..] == tail + [move];
    InsMore(tail, move);
    if h >= 0 { assert moves[..h] == before[..h]; }
  }

  lemma LaterIsNothing(before: seq<Move>, move: Move)
    ensures Later(before + [move], |before|) == {} && Earlier(before + [move], |before|) == Ins(before)
  {
    var moves := before + [move];
    assert moves[|before| + 1..] == [] && moves[..|before|] == before;
  }

  lemma InsSplit(moves: seq<Move>, k: nat)
    requires k <= |moves|
    ensures Ins(moves[..k]) <= Ins(moves) && Ins(moves[k..]) <= Ins(moves)
  {
    var a, b := moves[..k], moves[k..];
    InsAppend(a, b);
    assert a + b == moves;
  }

  lemma LaterIn(moves: seq<Move>, h: int)
    requires -1 <= h < |moves|
    ensures Later(moves, h) <= Ins(moves) && Earlier(moves, h) <= Ins(moves)
  {
    InsSplit(moves, h + 1);
    if h >= 0 { InsSplit(moves, h); }
  }

  /** ... and the same after the moves of a run. */
  ghost predicate KnowsAfter(items: seq<Item>, d: Desk, moves: seq<Move>, j: nat, h: int)
    requires j < |items|
  {
    && -1 <= h < |moves| && (h >= 0 ==> moves[h].Out? && Of(items, j, moves[h].n))
    && Knows(PacketsOf(items, j), items[j].Split?, d, j, h >= 0, Earlier(moves, h), Later(moves, h))
  }

  lemma {:induction false} DeskKnows(items: seq<Item>, moves: seq<Move>, j: nat)
    requires Causal(items, moves) && j < |items|
    ensures KnowsAfter(items, DeskRun(items, moves), moves, j, LastHanded(items, moves, j))
    decreases moves
  {
    if moves == [] {
      assert moves[0..] == [];
    } else {
      var before, last := moves[..|moves| - 1], moves[|moves| - 1];
      assert moves == before + [last];
      DeskKnows(items, before, j);
      var h, d := LastHanded(items, before, j), DeskRun(items, before);
      if last.In? {
        InKnows(items, d, before, last.n, j, h);
      } else {
        InsExist(items, before, last.n);
        OwnerOf(items, last.n);
        var i := Owner(items, last.n);
        if !HandsOut(items, d, last.n) {
          PassKnows(items, d, before, last.n, j, h);
        } else if i == j {
          OwnKnows(items, d, before, last.n, j, h);
        } else {
          OtherKnows(items, d, before, last.n, i, j, h);
        }
      }
    }
  }

  lemma {:induction false} InKnows(items: seq<Item>, d: Desk, before: seq<Move>, m: int, j: nat, h: int)
    requires j < |items| && KnowsAfter(items, d, before, j, h)
    ensures KnowsAfter(items, DeskStep(items, d, In(m)), before + [In(m)], j, h)
  {
    LaterGrows(before, h, In(m));
    WithinBoth(PacketsOf(items, j), d.recent, Later(before, h), m);
  }

  /** Taking a packet that hands out nothing. */
  lemma {:induction false} PassKnows(items: seq<Item>, d: Desk, before: seq<Move>, m: int, j: nat, h: int)
    requires j < |items| && KnowsAfter(items, d, before, j, h)
    ensures KnowsAfter(items, d, before + [Out(m)], j, h)
  {
    LaterGrows(before, h, Out(m));
  }

  /** Taking a packet that hands out another item. */
  lemma {:induction false} OtherKnows(items: seq<Item>, d: Desk, before: seq<Move>, m: int, i: nat, j: nat, h: int)
    requires i < |items| && j < |items| && i != j && KnowsAfter(items, d, before, j, h)
    ensures KnowsAfter(items, Desk(d.recent - PacketsOf(items, i), d.log + [i]), before + [Out(m)], j, h)
  {
    PassKnows(items, d, before, m, j, h);
    Apart(items, i, j);
    var moves := before + [Out(m)];
    DropOther(PacketsOf(items, j), items[j].Split?, d, PacketsOf(items, i), i, j, h >= 0, Earlier(moves, h),
              Later(moves, h));
  }

  /** Taking a packet that hands out item `j`. */
  lemma {:induction false} OwnKnows(items: seq<Item>, d: Desk, before: seq<Move>, m: int, j: nat, h: int)
    requires j < |items| && KnowsAfter(items, d, before, j, h) && Of(items, j, m)
    requires items[j].Split? ==> PacketsOf(items, j) <= d.recent
    ensures KnowsAfter(items, Desk(d.recent - PacketsOf(items, j), d.log + [j]), before + [Out(m)], j, |before|)
  {
    LaterIsNothing(before, Out(m));
    LaterIn(before, h);
    WithinAll(PacketsOf(items, j), d.recent, Later(before, h));
  }

  lemma DropOther(packets: set<int>, split: bool, d: Desk, others: set<int>, i: nat, j: nat, handed: bool,
                  earlier: set<int>, later: set<int>)
    requires Knows(packets, split, d, j, handed, earlier, later) && others !! packets && i != j
    ensures Knows(packets, split, Desk(d.recent - others, d.log + [i]), j, handed, earlier, later)
  {
    assert SameWithin(packets, d.recent - others, later);
  }

  lemma OnceStep(log: seq<nat>, x: nat)
    ensures NoDuplicates(log + [x]) <==> NoDuplicates(log) && x !in log
  {
    var longer := log + [x];
    if NoDuplicates(longer) {
      forall i, j | 0 <= i < j < |log| ensures log[i] != log[j] { assert longer[i] != longer[j]; }
      forall i | 0 <= i < |log| ensures log[i] != x { assert longer[i] != longer[|log|]; }
    }
  }

  /** In a log without repeats an item that was handed out early on is not handed out again. */
  lemma {:induction false} StaysHanded(items: seq<Item>, moves: seq<Move>, j: nat, k: nat)
    requires Causal(items, moves) && j < |items| && k <= |moves| && NoDuplicates(DeskRun(items, moves).log)
    requires LastHanded(items, moves[..k], j) >= 0
    ensures LastHanded(items, moves, j) == LastHanded(items, moves[..k], j)
    decreases moves
  {
    if k < |moves| {
      var before := moves[..|moves| - 1];
      assert before[..k] == moves[..k];
      OnceBefore(items, moves);
      StaysHanded(items, before, j, k);
      DeskKnows(items, before, j);
    } else {
      assert moves[..k] == moves;
    }
  }

  lemma {:induction false} OnceBefore(items: seq<Item>, moves: seq<Move>)
    requires moves != [] && NoDuplicates(DeskRun(items, moves).log)
    ensures var before, last := moves[..|moves| - 1], moves[|moves| - 1];
            && NoDuplicates(DeskRun(items, before).log)
            && (last.Out? && HandsOut(items, DeskRun(items, before), last.n) ==>
                  Owner(items, last.n) !in DeskRun(items, before).log)
  {
    var d, last := DeskRun(items, moves[..|moves| - 1]), moves[|moves| - 1];
    if last.Out? && HandsOut(items, d, last.n) { OnceStep(d.log, Owner(items, last.n)); }
  }

  lemma RevivesBefore(items: seq<Item>, moves: seq<Move>, j: int, a: int, b: int)
    requires moves != [] && b < |moves| - 1
    ensures Revives(items, moves, j, a, b) <==> Revives(items, moves[..|moves| - 1], j, a, b)
  {
    var before := moves[..|moves| - 1];
    if 0 <= a < b {
      assert moves[..a] == before[..a] && moves[a + 1..b] == before[a + 1..b];
    }
  }

  /** A plain item is taken once. */
  lemma {:induction false} SameTake(items: seq<Item>, before: seq<Move>, j: nat, h: int, n: int)
    requires j < |items| && items[j].Plain? && 0 <= h < |before| && before[h].Out? && Of(items, j, before[h].n) &&
             Of(items, j, n)
    ensures n in Outs(before)
  {
    assert before[h] in before;
    OutsAreMoves(before, n);
  }

  /** If the last take hands out an item again, its fragments have all arrived again since. */
  lemma {:induction false} RepeatRevives(items: seq<Item>, moves: seq<Move>, j: nat) returns (a: int)
    requires moves != [] && Causal(items, moves) && moves[|moves| - 1].Out? && j == Owner(items, moves[|moves| - 1].n)
    requires HandsOut(items, DeskRun(items, moves[..|moves| - 1]), moves[|moves| - 1].n)
    requires j in DeskRun(items, moves[..|moves| - 1]).log
    ensures Revives(items, moves, j, a, |moves| - 1)
  {
    var before, n := moves[..|moves| - 1], moves[|moves| - 1].n;
    InsExist(items, before, n);
    OwnerOf(items, n);
    DeskKnows(items, before, j);
    a := LastHanded(items, before, j);
    if items[j].Plain? {
      SameTake(items, before, j, a, n);
    } else {
      WithinAll(PacketsOf(items, j), DeskRun(items, before).recent, Later(before, a));
      assert moves[..a] == before[..a] && moves[a + 1..|before|] == before[a + 1..];
    }
  }

  /** When a header of an item is taken after all its fragments arrived, the item has been handed out. */
  lemma {:induction false} HandedBy(items: seq<Item>, before: seq<Move>, n: int, j: nat)
    requires Causal(items, before) && j < |items| && Of(items, j, n) && AllIn(items, j, before)
    ensures LastHanded(items, before + [Out(n)], j) >= 0
  {
    NotYetHanded(items, before, j);
    DeskKnows(items, before, j);
    HandedNow(items, before, n, j);
  }

  lemma {:induction false} HandedNow(items: seq<Item>, before: seq<Move>, n: int, j: nat)
    requires j < |items| && Of(items, j, n)
    requires LastHanded(items, before, j) >= 0 || PacketsOf(items, j) <= DeskRun(items, before).recent
    ensures LastHanded(items, before + [Out(n)], j) >= 0
  {
    OwnerIs(items, j, n);
    assert (before + [Out(n)])[..|before|] == before;
  }

  lemma {:induction false} CausalPrefix(items: seq<Item>, moves: seq<Move>, k: nat)
    requires Causal(items, moves) && k <= |moves|
    ensures Causal(items, moves[..k])
    decreases moves
  {
    if k < |moves| {
      CausalPrefix(items, moves[..|moves| - 1], k);
      assert moves[..|moves| - 1][..k] == moves[..k];
    } else {
      assert moves[..k] == moves;
    }
  }

  /** If the fragments of an item all arrive again between two takes of its headers, it is handed out again. */
  lemma {:induction false} ReviveRepeats(items: seq<Item>, moves: seq<Move>, j: nat, a: nat)
    requires moves != [] && Causal(items, moves) && NoDuplicates(DeskRun(items, moves[..|moves| - 1]).log)
    requires Revives(items, moves, j, a, |moves| - 1)
    ensures var before, n := moves[..|moves| - 1], moves[|moves| - 1].n;
            j == Owner(items, n) && HandsOut(items, DeskRun(items, before), n) && j in DeskRun(items, before).log
  {
    var before := moves[..|moves| - 1];
    assert before[..a] == moves[..a] && before[a + 1..] == moves[a + 1..|before|];
    OwnerIs(items, j, moves[|moves| - 1].n);
    HandedEarly(items, before, j, a);
    DeskKnows(items, before, j);
    ArrivedSince(items, DeskRun(items, before), before, j, LastHanded(items, before, j), a);
  }

  /** An item whose fragments all arrived before a take of its header at `a` was handed out last by then. */
  lemma {:induction false} HandedEarly(items: seq<Item>, moves: seq<Move>, j: nat, a: nat)
    requires Causal(items, moves) && j < |items| && NoDuplicates(DeskRun(items, moves).log)
    requires a < |moves| && moves[a].Out? && Of(items, j, moves[a].n) && AllIn(items, j, moves[..a])
    ensures 0 <= LastHanded(items, moves, j) <= a
  {
    CausalPrefix(items, moves, a);
    HandedBy(items, moves[..a], moves[a].n, j);
    assert moves[..a + 1] == moves[..a] + [Out(moves[a].n)];
    StaysHanded(items, moves, j, a + 1);
    CausalPrefix(items, moves, a + 1);
    DeskKnows(items, moves[..a + 1], j);
  }

  /** Fragments that all arrived after `a` are all recent when the item was handed out last by then. */
  lemma {:induction false} ArrivedSince(items: seq<Item>, d: Desk, moves: seq<Move>, j: nat, h: int, a: nat)
    requires j < |items| && KnowsAfter(items, d, moves, j, h) && 0 <= h <= a < |moves|
    requires AllIn(items, j, moves[a + 1..])
    ensures j in d.log && PacketsOf(items, j) <= d.recent
  {
    LaterCovers(moves, h, a);
    WithinAll(PacketsOf(items, j), d.recent, Later(moves, h));
  }

  lemma LaterCovers(moves: seq<Move>, h: int, a: int)
    requires -1 <= h <= a < |moves|
    ensures Ins(moves[a + 1..]) <= Later(moves, h)
  {
    assert moves[h + 1..] == moves[h + 1..a + 1] + moves[a + 1..];
    InsAppend(moves[h + 1..a + 1], moves[a + 1..]);
  }

  /** No item is handed out twice exactly when, for no fragmented item, all fragments arrive, a header is
      taken, all fragments arrive again, and another header is taken. */
  lemma {:induction false} OnceExactly(items: seq<Item>, moves: seq<Move>)
    requires Causal(items, moves)
    ensures NoDuplicates(DeskRun(items, moves).log) <==> !Revived(items, moves)
    decreases moves
  {
    if moves != [] {
      var before := moves[..|moves| - 1];
      OnceExactly(items, before);
      if Revived(items, before) {
        var j, a, b :| Revives(items, before, j, a, b);
        RevivesBefore(items, moves, j, a, b);
        NotOnce(items, moves);
      } else {
        LastDecides(items, moves);
      }
    }
  }

  lemma {:induction false} NotOnce(items: seq<Item>, moves: seq<Move>)
    requires moves != [] && !NoDuplicates(DeskRun(items, moves[..|moves| - 1]).log)
    ensures !NoDuplicates(DeskRun(items, moves).log)
  {
    var d, last := DeskRun(items, moves[..|moves| - 1]), moves[|moves| - 1];
    if last.Out? && HandsOut(items, d, last.n) { OnceStep(d.log, Owner(items, last.n)); }
  }

  lemma {:induction false} LastDecides(items: seq<Item>, moves: seq<Move>)
    requires moves != [] && Causal(items, moves)
    requires NoDuplicates(DeskRun(items, moves[..|moves| - 1]).log) && !Revived(items, moves[..|moves| - 1])
    ensures NoDuplicates(DeskRun(items, moves).log) <==> !Revived(items, moves)
  {
    var before, last := moves[..|moves| - 1], moves[|moves| - 1];
    var d := DeskRun(items, before);
    if last.Out? && HandsOut(items, d, last.n) { OnceStep(d.log, Owner(items, last.n)); }
    if !NoDuplicates(DeskRun(items, moves).log) {
      var a := RepeatRevives(items, moves, Owner(items, last.n));
    }
    if Revived(items, moves) {
      var j, a, b :| Revives(items, moves, j, a, b);
      RevivesBefore(items, moves, j, a, if b < |before| then b else |before| - 1);
      assert b == |before|;
      ReviveRepeats(items, moves, j, a);
    }
  }

  // ---- none is missed ----

  lemma {:induction false} OutsAreIn(items: seq<Item>, moves: seq<Move>, n: int)
    requires Causal(items, moves) && n in Outs(moves)
    ensures n in Ins(moves)
    decreases moves
  {
    var before := moves[..|moves| - 1];
    if n in Outs(before) { OutsAreIn(items, before, n); }
  }

  /** An item whose packets have all been taken has been handed out. */
  lemma {:induction false} NoneMissed(items: seq<Item>, moves: seq<Move>, j: nat)
    requires Causal(items, moves) && j < |items| && items[j].body != [] && AllOut(items, j, moves)
    ensures j in DeskRun(items, moves).log
    decreases moves
  {
    SizePositive(items[j]);
    assert Of(items, j, First(items, j)) && First(items, j) in PacketsOf(items, j);
    var before, last := moves[..|moves| - 1], moves[|moves| - 1];
    var d := DeskRun(items, before);
    if AllOut(items, j, before) {
      NoneMissed(items, before, j);
    } else {
      assert last.Out? && last.n in PacketsOf(items, j);
      OwnerIs(items, j, last.n);
      forall n | n in PacketsOf(items, j) ensures n in Ins(before) {
        if n != last.n { OutsAreIn(items, before, n); }
      }
      NotYetHanded(items, before, j);
    }
  }

  /** Until an item is handed out, all its packets that arrived are recent. */
  lemma {:induction false} NotYetHanded(items: seq<Item>, moves: seq<Move>, j: nat)
    requires Causal(items, moves) && j < |items| && AllIn(items, j, moves)
    ensures j in DeskRun(items, moves).log || PacketsOf(items, j) <= DeskRun(items, moves).recent
  {
    DeskKnows(items, moves, j);
    NotYetHandedAt(items, DeskRun(items, moves), moves, j, LastHanded(items, moves, j));
  }

  lemma {:induction false} NotYetHandedAt(items: seq<Item>, d: Desk, moves: seq<Move>, j: nat, h: int)
    requires j < |items| && KnowsAfter(items, d, moves, j, h) && AllIn(items, j, moves)
    ensures j in d.log || PacketsOf(items, j) <= d.recent
  {
    if h < 0 {
      LaterFromStart(moves);
      WithinAll(PacketsOf(items, j), d.recent, Later(moves, h));
    }
  }

  lemma LaterFromStart(moves: seq<Move>)
    ensures Later(moves, -1) == Ins(moves)
  {
    assert moves[0..] == moves;
  }

  // ---- order ----

  predicate Sorted(log: seq<nat>) {
    forall i, j :: 0 <= i < j < |log| ==> log[i] <= log[j]
  }

  lemma {:induction false} OwnerSorted(items: seq<Item>, i: nat, j: nat, m: int, n: int)
    requires i < |items| && First(items, i) <= m < n && Of(items, j, n)
    ensures i <= j
  {
    if i > j { FirstGrows(items, j + 1, i); }
  }

  /** A packet of item `x` or a later one is among `outs`. */
  predicate Reached(items: seq<Item>, outs: seq<int>, x: nat) {
    x < |items| && exists i :: 0 <= i < |outs| && First(items, x) <= outs[i]
  }

  predicate AllReached(items: seq<Item>, outs: seq<int>, log: seq<nat>) {
    forall x :: x in log ==> Reached(items, outs, x)
  }

  lemma ReachedMore(items: seq<Item>, outs: seq<int>, n: int, log: seq<nat>)
    requires AllReached(items, outs, log)
    ensures AllReached(items, outs + [n], log)
  {
    forall x | x in log ensures Reached(items, outs + [n], x) {
      var i :| 0 <= i < |outs| && First(items, x) <= outs[i];
      assert (outs + [n])[i] == outs[i];
    }
  }

  /** When packets are taken in increasing order, items are handed out in order. */
  lemma {:induction false} HandedInOrder(items: seq<Item>, moves: seq<Move>)
    requires Causal(items, moves) && Increasing(Outs(moves))
    ensures Sorted(DeskRun(items, moves).log)
    ensures AllReached(items, Outs(moves), DeskRun(items, moves).log)
    decreases moves
  {
    if moves != [] {
      var before, last := moves[..|moves| - 1], moves[|moves| - 1];
      assert Outs(before) <= Outs(moves);
      assert Increasing(Outs(before));
      HandedInOrder(items, before);
      if last.Out? {
        InsExist(items, before, last.n);
        OwnerOf(items, last.n);
        LastInOrder(items, Outs(before), last.n, DeskRun(items, before).log, Owner(items, last.n));
        ReachedMore(items, Outs(before), last.n, DeskRun(items, before).log);
      }
    }
  }

  lemma {:induction false} LastInOrder(items: seq<Item>, outs: seq<int>, n: int, log: seq<nat>, j: nat)
    requires Of(items, j, n) && Increasing(outs + [n]) && Sorted(log) && AllReached(items, outs, log)
    ensures Sorted(log + [j]) && AllReached(items, outs + [n], log + [j])
  {
    forall x | x in log ensures x <= j {
      assert Reached(items, outs, x);
      var k :| 0 <= k < |outs| && First(items, x) <= outs[k];
      assert (outs + [n])[k] < (outs + [n])[|outs|];
      OwnerSorted(items, x, j, outs[k], n);
    }
    assert forall i :: 0 <= i < |log| ==> log[i] in log;
    ReachedMore(items, outs, n, log);
    assert (outs + [n])[|outs|] == n && Reached(items, outs + [n], j);
  }

  /** Each entry repeats the one before or is the next; the first is 0. */
  predicate Shape(log: seq<nat>) {
    && (log != [] ==> log[0] == 0)
    && forall i :: 0 < i < |log| ==> log[i] == log[i - 1] || log[i] == log[i - 1] + 1
  }

  /** How many items have been handed out. */
  function Handed(log: seq<nat>): nat {
    if log == [] then 0 else log[|log| - 1] + 1
  }

  lemma {:induction false} ShapeMembers(log: seq<nat>, x: nat)
    requires Shape(log)
    ensures x in log <==> x < Handed(log)
  {
    if log != [] {
      var before, last := log[..|log| - 1], log[|log| - 1];
      assert log == before + [last];
      ShapeBefore(log);
      ShapeMembers(before, x);
    }
  }

  lemma ShapeAppend(log: seq<nat>, x: nat)
    requires Shape(log) && (x == Handed(log) || x + 1 == Handed(log))
    ensures Shape(log + [x]) && Handed(log + [x]) == x + 1
  {
    var longer := log + [x];
    assert forall i :: 0 <= i < |log| ==> longer[i] == log[i];
  }

  lemma ShapeBefore(log: seq<nat>)
    requires Shape(log) && log != []
    ensures var before, last := log[..|log| - 1], log[|log| - 1];
            Shape(before) && (last == Handed(before) || last + 1 == Handed(before))
  {
    var before := log[..|log| - 1];
    assert forall i :: 0 <= i < |before| ==> before[i] == log[i];
  }

  /** When packets 1, 2, ... are taken in turn, items are handed out in order and without gaps. */
  lemma {:induction false} WithoutGaps(items: seq<Item>, moves: seq<Move>)
    requires Proper(items) && Causal(items, moves) && Outs(moves) == Runs.UpTo(|Outs(moves)|)
    ensures Shape(DeskRun(items, moves).log) && Handed(DeskRun(items, moves).log) <= |items|
    decreases moves
  {
    if moves != [] {
      var before, last := moves[..|moves| - 1], moves[|moves| - 1];
      UpToPrefix(moves);
      WithoutGaps(items, before);
      if last.Out? && HandsOut(items, DeskRun(items, before), last.n) {
        NextInTurn(items, moves);
        ShapeAppend(DeskRun(items, before).log, Owner(items, last.n));
      }
    }
  }

  lemma {:induction false} UpToPrefix(moves: seq<Move>)
    requires moves != [] && Outs(moves) == Runs.UpTo(|Outs(moves)|)
    ensures var before, last := moves[..|moves| - 1], moves[|moves| - 1];
            Outs(before) == Runs.UpTo(|Outs(before)|) && (last.Out? ==> last.n == |Outs(before)| + 1)
  {
    var before, last := moves[..|moves| - 1], moves[|moves| - 1];
    assert Outs(before) == Outs(moves)[..|Outs(before)|];
    if last.Out? { assert Outs(moves)[|Outs(before)|] == last.n; }
  }

  /** The item whose packet is next is the one handed out last or the one after it. */
  lemma {:induction false} NextInTurn(items: seq<Item>, moves: seq<Move>)
    requires Proper(items) && Causal(items, moves) && Outs(moves) == Runs.UpTo(|Outs(moves)|)
    requires moves != [] && moves[|moves| - 1].Out?
    requires Shape(DeskRun(items, moves[..|moves| - 1]).log)
    ensures var log, j := DeskRun(items, moves[..|moves| - 1]).log, Owner(items, moves[|moves| - 1].n);
            j < |items| && (j == Handed(log) || j + 1 == Handed(log))
  {
    var before, last := moves[..|moves| - 1], moves[|moves| - 1];
    var log, j := DeskRun(items, before).log, Owner(items, last.n);
    InsExist(items, before, last.n);
    OwnerOf(items, last.n);
    UpToPrefix(moves);
    if j > 0 {
      ItemBefore(items, before, j - 1);
      ShapeMembers(log, j - 1);
    }
    NotBeyond(items, before, j + 1);
    ShapeMembers(log, j + 1);
  }

  /** Once packet numbers have passed item `j`, it has been handed out. */
  lemma {:induction false} ItemBefore(items: seq<Item>, moves: seq<Move>, j: nat)
    requires Proper(items) && Causal(items, moves) && Outs(moves) == Runs.UpTo(|Outs(moves)|)
    requires j < |items| && First(items, j + 1) <= |Outs(moves)| + 1
    ensures j in DeskRun(items, moves).log
  {
    FirstGrows(items, 0, j);
    forall n | n in PacketsOf(items, j) ensures n in Outs(moves) {
      assert Outs(moves)[n - 1] == n;
    }
    NoneMissed(items, moves, j);
  }

  lemma {:induction false} NotBeyond(items: seq<Item>, moves: seq<Move>, j: nat)
    requires Causal(items, moves) && Outs(moves) == Runs.UpTo(|Outs(moves)|)
    requires j <= |items| && |Outs(moves)| < First(items, j)
    ensures j !in DeskRun(items, moves).log
  {
    UpToIncreases(|Outs(moves)|);
    HandedInOrder(items, moves);
    assert !Reached(items, Outs(moves), j);
  }

  lemma UpToIncreases(k: nat)
    ensures Increasing(Runs.UpTo(k))
  {
  }

  lemma {:induction false} OnceIsCounting(log: seq<nat>)
    requires Shape(log) && NoDuplicates(log)
    ensures forall i :: 0 <= i < |log| ==> log[i] == i
  {
    if log != [] {
      var before := log[..|log| - 1];
      assert forall i :: 0 <= i < |before| ==> before[i] == log[i];
      OnceIsCounting(before);
      if |log| > 1 {
        assert log[|log| - 2] == before[|log| - 2] == |log| - 2;
        assert log[|log| - 2] != log[|log| - 1];
      }
    }
  }
}
