/**
 The ranking queries of the score sheet.

 `getTopPlayers` sorts a copy of the player list with the comparator
 `(a, b) => b.total - a.total`, so higher totals come first, and keeps the
 first three. `Array.prototype.sort` is stable from the 2019 edition of
 ECMA-262 on, so players with equal totals keep their list order. The sort is
 modelled as a stable insertion sort, and `StableSortUnique` shows that any
 stable sort by descending total produces the same list.

 `getMedalIcon` looks a player up by id in that top list and hands out gold,
 silver and bronze by position.
 */
module Ranking {
  import opened Seqs
  import opened Session

  /** `slice(0, 3)`: how many players are ranked. */
  const Podium: nat := 3

  predicate SortedByTotal(ps: seq<Player>) {
    forall i, j :: 0 <= i < j < |ps| ==> ps[i].total >= ps[j].total
  }

  /** The players whose total is `t`, in list order. */
  function WithTotal(ps: seq<Player>, t: int): seq<Player> {
    if ps == [] then [] else (if ps[0].total == t then [ps[0]] else []) + WithTotal(ps[1..], t)
  }

  lemma {:induction false} WithTotalAppend(a: seq<Player>, b: seq<Player>, t: int)
    ensures WithTotal(a + b, t) == WithTotal(a, t) + WithTotal(b, t)
    decreases |a|
  {
    if a == [] {
      assert a + b == b;
    } else {
      var head := if a[0].total == t then [a[0]] else [];
      HeadTail(a);
      ConcatAssoc([a[0]], a[1..], b);
      WithTotalCons(a[0], a[1..] + b, t);
      WithTotalCons(a[0], a[1..], t);
      WithTotalAppend(a[1..], b, t);
      ConcatAssoc(head, WithTotal(a[1..], t), WithTotal(b, t));
    }
  }

  lemma {:induction false} WithTotalMembers(ps: seq<Player>, t: int)
    ensures forall q :: q in WithTotal(ps, t) <==> q in ps && q.total == t
    decreases |ps|
  {
    if ps != [] {
      WithTotalMembers(ps[1..], t);
      assert forall q :: q in ps <==> q == ps[0] || q in ps[1..];
    }
  }

  /** Putting `x` in front adds `x` to the players of its own total. */
  lemma WithTotalCons(x: Player, xs: seq<Player>, t: int)
    ensures WithTotal([x] + xs, t) == (if x.total == t then [x] else []) + WithTotal(xs, t)
  {
    assert ([x] + xs)[0] == x && ([x] + xs)[1..] == xs;
  }

  /** Insert `p` in front of the first player whose total is not higher than
      its own, so that it lands after every higher total and before every equal
      one. */
  function Insert(p: Player, xs: seq<Player>): (r: seq<Player>)
    ensures |r| == |xs| + 1
    ensures multiset(r) == multiset(xs) + multiset{p}
    ensures r[0] == p || (xs != [] && r[0] == xs[0])
  {
    if xs == [] || p.total >= xs[0].total then
      [p] + xs
    else
      var rest := Insert(p, xs[1..]);
      HeadTail(xs);
      assert multiset([xs[0]] + rest) == multiset{xs[0]} + multiset(rest);
      [xs[0]] + rest
  }

  /** Inserting into a sorted list keeps it sorted. */
  lemma {:induction false} InsertSorted(p: Player, xs: seq<Player>)
    requires SortedByTotal(xs)
    ensures SortedByTotal(Insert(p, xs))
    decreases |xs|
  {
    if xs == [] || p.total >= xs[0].total {
      ConsSorted(p, xs);
    } else {
      var rest := Insert(p, xs[1..]);
      assert SortedByTotal(xs[1..]) by {
        assert forall i :: 0 <= i < |xs| - 1 ==> xs[1..][i] == xs[i + 1];
      }
      InsertSorted(p, xs[1..]);
      assert |xs| > 1 ==> xs[0].total >= xs[1].total;
      ConsSorted(xs[0], rest);
    }
  }

  /** A player whose total is at least the head's can go in front of a sorted
      list. */
  lemma ConsSorted(x: Player, xs: seq<Player>)
    requires SortedByTotal(xs)
    requires xs != [] ==> x.total >= xs[0].total
    ensures SortedByTotal([x] + xs)
  {
    var r := [x] + xs;
    forall i, j | 0 <= i < j < |r| ensures r[i].total >= r[j].total {
      assert r[j] == xs[j - 1];
      if i > 0 {
        assert r[i] == xs[i - 1];
      }
    }
  }

  /** Inserting does not reorder players of equal total. */
  lemma {:induction false} InsertWithTotal(p: Player, xs: seq<Player>, t: int)
    ensures WithTotal(Insert(p, xs), t) == WithTotal([p] + xs, t)
    decreases |xs|
  {
    if xs != [] && p.total < xs[0].total {
      InsertWithTotal(p, xs[1..], t);
      InsertPastHead(p, xs, t);
    } else {
      assert Insert(p, xs) == [p] + xs;
    }
  }

  /** One step of `InsertWithTotal`: passing over a head of higher total keeps
      the players of total `t` in the same order. */
  lemma InsertPastHead(p: Player, xs: seq<Player>, t: int)
    requires xs != [] && p.total < xs[0].total
    requires WithTotal(Insert(p, xs[1..]), t) == WithTotal([p] + xs[1..], t)
    ensures WithTotal(Insert(p, xs), t) == WithTotal([p] + xs, t)
  {
    var x, tail := xs[0], xs[1..];
    var rest := Insert(p, tail);
    var hp := if p.total == t then [p] else [];
    var hx := if x.total == t then [x] else [];
    var w := WithTotal(tail, t);
    HeadTail(xs);
    calc {
      WithTotal(Insert(p, xs), t);
      { assert Insert(p, xs) == [x] + rest; }
      WithTotal([x] + rest, t);
      { WithTotalCons(x, rest, t); }
      hx + WithTotal(rest, t);
      { WithTotalCons(p, tail, t); }
      hx + (hp + w);
      { SwapTies(hx, hp, w); }
      hp + (hx + w);
      { WithTotalCons(x, tail, t); }
      hp + WithTotal(xs, t);
      { WithTotalCons(p, xs, t); }
      WithTotal([p] + xs, t);
    }
  }

  /** At most one of two heads is non-empty, so their order does not matter. */
  lemma SwapTies(a: seq<Player>, b: seq<Player>, w: seq<Player>)
    requires a == [] || b == []
    ensures a + (b + w) == b + (a + w)
  {
    if a == [] {
      assert a + (b + w) == b + w;
      assert a + w == w;
    } else {
      assert b + w == w;
      assert b + (a + w) == a + w;
    }
  }

  /** The stable sort by descending total. */
  function SortByTotal(ps: seq<Player>): (r: seq<Player>)
    ensures |r| == |ps|
    ensures multiset(r) == multiset(ps)
    ensures SortedByTotal(r)
  {
    if ps == [] then []
    else
      var rest := SortByTotal(ps[1..]);
      HeadTail(ps);
      InsertSorted(ps[0], rest);
      Insert(ps[0], rest)
  }

  /** The sort is stable: the players of each total come out in the order they
      went in. */
  lemma {:induction false} SortStable(ps: seq<Player>, t: int)
    ensures WithTotal(SortByTotal(ps), t) == WithTotal(ps, t)
    decreases |ps|
  {
    if ps != [] {
      var rest := SortByTotal(ps[1..]);
      var head := if ps[0].total == t then [ps[0]] else [];
      calc {
        WithTotal(SortByTotal(ps), t);
        { assert SortByTotal(ps) == Insert(ps[0], rest); }
        WithTotal(Insert(ps[0], rest), t);
        { InsertWithTotal(ps[0], rest, t); }
        WithTotal([ps[0]] + rest, t);
        { WithTotalCons(ps[0], rest, t); }
        head + WithTotal(rest, t);
        { SortStable(ps[1..], t); }
        head + WithTotal(ps[1..], t);
        { WithTotalCons(ps[0], ps[1..], t); HeadTail(ps); }
        WithTotal(ps, t);
      }
    }
  }

  lemma WithTotalHead(a: seq<Player>)
    requires a != []
    ensures WithTotal(a, a[0].total) != [] && WithTotal(a, a[0].total)[0] == a[0]
  {
  }

  lemma SortedHeadIsMax(a: seq<Player>, q: Player)
    requires SortedByTotal(a) && q in a
    ensures q.total <= a[0].total
  {
    var k :| 0 <= k < |a| && a[k] == q;
  }

  /** The head of a list sorted by descending total has the highest total, and
      it is the first player of that total. */
  lemma HeadInTies(a: seq<Player>, b: seq<Player>)
    requires SortedByTotal(b) && a != [] && b != []
    requires WithTotal(a, a[0].total) == WithTotal(b, a[0].total)
    ensures a[0].total <= b[0].total
  {
    WithTotalHead(a);
    WithTotalMembers(b, a[0].total);
    assert a[0] in WithTotal(b, a[0].total);
    SortedHeadIsMax(b, a[0]);
  }

  /** Two lists with the same players of each total, both sorted by descending
      total, start with the same player. */
  lemma SameHead(a: seq<Player>, b: seq<Player>)
    requires SortedByTotal(a) && SortedByTotal(b) && a != [] && b != []
    requires forall t :: WithTotal(a, t) == WithTotal(b, t)
    ensures a[0] == b[0]
  {
    assert WithTotal(a, a[0].total) == WithTotal(b, a[0].total);
    assert WithTotal(b, b[0].total) == WithTotal(a, b[0].total);
    HeadInTies(a, b);
    HeadInTies(b, a);
    WithTotalHead(a);
    WithTotalHead(b);
  }

  /** Dropping a common head keeps the players of each total equal. */
  lemma SameTiesTail(a: seq<Player>, b: seq<Player>, u: int)
    requires a != [] && b != [] && a[0] == b[0]
    requires WithTotal(a, u) == WithTotal(b, u)
    ensures WithTotal(a[1..], u) == WithTotal(b[1..], u)
  {
    var head := if a[0].total == u then [a[0]] else [];
    HeadTail(a);
    HeadTail(b);
    WithTotalCons(a[0], a[1..], u);
    WithTotalCons(b[0], b[1..], u);
    assert WithTotal(a[1..], u) == WithTotal(a, u)[|head|..];
  }

  /** A list sorted by descending total is determined by its players of each
      total taken in order: any two stable sorts of one list agree. */
  lemma {:induction false} StableSortUnique(a: seq<Player>, b: seq<Player>)
    requires SortedByTotal(a) && SortedByTotal(b)
    requires forall t :: WithTotal(a, t) == WithTotal(b, t)
    ensures a == b
    decreases |a|
  {
    if a == [] && b == [] {
    } else if a == [] {
      WithTotalHead(b);
    } else if b == [] {
      WithTotalHead(a);
    } else {
      SameHead(a, b);
      forall u ensures WithTotal(a[1..], u) == WithTotal(b[1..], u) {
        SameTiesTail(a, b, u);
      }
      StableSortUnique(a[1..], b[1..]);
      HeadTail(a);
      HeadTail(b);
    }
  }

  /** `SortByTotal` is the only stable sort by descending total: any list that
      is sorted that way and keeps each total's players in list order is it. */
  lemma SortByTotalUnique(ps: seq<Player>, r: seq<Player>)
    requires SortedByTotal(r)
    requires forall t :: WithTotal(r, t) == WithTotal(ps, t)
    ensures r == SortByTotal(ps)
  {
    forall t ensures WithTotal(r, t) == WithTotal(SortByTotal(ps), t) {
      SortStable(ps, t);
    }
    StableSortUnique(r, SortByTotal(ps));
  }

  function Min(a: int, b: int): int {
    if a < b then a else b
  }

  /** `getTopPlayers`: the first three players of the stable sort. They are at
      most three, drawn from the list, and highest total first. */
  function TopPlayers(ps: seq<Player>): (r: seq<Player>)
    ensures |r| == Min(Podium, |ps|)
    ensures SortedByTotal(r)
    ensures multiset(r) <= multiset(ps)
  {
    var sorted := SortByTotal(ps);
    var r := sorted[..Min(Podium, |ps|)];
    assert sorted == r + sorted[|r|..];
    r
  }

  /** Nobody left out of the top list has a higher total than anyone in it. */
  lemma TopPlayersBeatRest(ps: seq<Player>, q: Player)
    requires q in multiset(ps) - multiset(TopPlayers(ps))
    ensures forall i :: 0 <= i < |TopPlayers(ps)| ==> q.total <= TopPlayers(ps)[i].total
  {
    var sorted := SortByTotal(ps);
    var r := TopPlayers(ps);
    var n := |r|;
    var rest := sorted[n..];
    assert r == sorted[..n];
    TakeDrop(sorted, n);
    LeftOver(r, rest, q);
    var j :| 0 <= j < |rest| && rest[j] == q;
    assert sorted[n + j] == q;
    forall i | 0 <= i < n ensures q.total <= r[i].total {
      assert r[i] == sorted[i];
    }
  }

  /** What `b` adds to `a` is found in `b`. */
  lemma LeftOver(a: seq<Player>, b: seq<Player>, q: Player)
    requires q in multiset(a + b) - multiset(a)
    ensures q in b
  {
    assert multiset(a + b) == multiset(a) + multiset(b);
  }

  /** Among players of equal total, the ones chosen are the earliest in the
      list, in list order. */
  lemma TopPlayersStable(ps: seq<Player>, t: int)
    ensures WithTotal(TopPlayers(ps), t) <= WithTotal(ps, t)
  {
    var sorted := SortByTotal(ps);
    var top := TopPlayers(ps);
    assert sorted == top + sorted[|top|..];
    WithTotalAppend(top, sorted[|top|..], t);
    SortStable(ps, t);
  }

  // ---------------------------------------------------------------------------
  // Medals
  // ---------------------------------------------------------------------------

  const Gold: string := "\U{1F947}"
  const Silver: string := "\U{1F948}"
  const Bronze: string := "\U{1F949}"

  /** The medal for each position of the top list. */
  const Medals: seq<string> := [Gold, Silver, Bronze]

  /** `findIndex`: the first position holding the id, or -1. */
  function FindIndex(ps: seq<Player>, id: string): (k: int)
    ensures -1 <= k < |ps|
    ensures k == -1 <==> forall j :: 0 <= j < |ps| ==> ps[j].id != id
    ensures k >= 0 ==> ps[k].id == id && forall j :: 0 <= j < k ==> ps[j].id != id
  {
    if ps == [] then -1
    else if ps[0].id == id then 0
    else
      var k := FindIndex(ps[1..], id);
      if k == -1 then -1 else k + 1
  }

  /** The `switch` on the position: a medal for positions 0, 1 and 2 only. */
  function MedalFor(k: int): string {
    if 0 <= k < |Medals| then Medals[k] else ""
  }

  /** `getMedalIcon`: the medal of the first top-list position holding the id,
      or the empty string when the id is not in the top list. */
  function MedalIcon(ps: seq<Player>, id: string): (m: string)
    ensures var top := TopPlayers(ps);
      && (m != "" <==> exists k :: 0 <= k < |top| && top[k].id == id)
      && forall k :: (0 <= k < |top| && top[k].id == id && forall j :: 0 <= j < k ==> top[j].id != id) ==>
           m == Medals[k]
  {
    MedalsDistinct();
    MedalFor(FindIndex(TopPlayers(ps), id))
  }

  lemma {:induction false} InsertKeepsUnique(p: Player, xs: seq<Player>)
    requires UniqueIds(xs)
    requires forall j :: 0 <= j < |xs| ==> xs[j].id != p.id
    ensures UniqueIds(Insert(p, xs))
    decreases |xs|
  {
    if xs == [] || p.total >= xs[0].total {
      ConsUnique(p, xs);
    } else {
      var rest := Insert(p, xs[1..]);
      assert UniqueIds(xs[1..]);
      InsertKeepsUnique(p, xs[1..]);
      forall j | 0 <= j < |rest| ensures rest[j].id != xs[0].id {
        assert rest[j] in multiset(rest);
        if rest[j] != p {
          assert rest[j] in xs[1..];
          var i :| 0 <= i < |xs| - 1 && xs[1..][i] == rest[j];
          assert xs[i + 1] == rest[j];
        }
      }
      ConsUnique(xs[0], rest);
    }
  }

  /** Sorting keeps the players distinct by id. */
  lemma {:induction false} SortKeepsUnique(ps: seq<Player>)
    requires UniqueIds(ps)
    ensures UniqueIds(SortByTotal(ps))
    decreases |ps|
  {
    if ps != [] {
      var tail := ps[1..];
      var rest := SortByTotal(tail);
      assert UniqueIds(tail);
      SortKeepsUnique(tail);
      forall j | 0 <= j < |rest| ensures rest[j].id != ps[0].id {
        assert rest[j] in multiset(tail);
        var i :| 0 <= i < |tail| && tail[i] == rest[j];
        assert ps[i + 1] == rest[j];
      }
      InsertKeepsUnique(ps[0], rest);
    }
  }

  /** Ids stay unique in the top list. */
  lemma TopKeepsUnique(ps: seq<Player>)
    requires UniqueIds(ps)
    ensures UniqueIds(TopPlayers(ps))
  {
    SortKeepsUnique(ps);
    var sorted := SortByTotal(ps);
    var top := TopPlayers(ps);
    assert forall i :: 0 <= i < |top| ==> top[i] == sorted[i];
  }

  /** The three medals are different strings, and none is empty. */
  lemma MedalsDistinct()
    ensures forall i :: 0 <= i < |Medals| ==> Medals[i] != ""
    ensures forall i, j :: 0 <= i < j < |Medals| ==> Medals[i] != Medals[j]
  {
    assert Gold[0] != Silver[0] && Gold[0] != Bronze[0] && Silver[0] != Bronze[0];
  }

  /** With unique ids, the player at position `k` of the top list gets the
      medal of position `k`, so each of them gets a different medal. */
  lemma MedalByPosition(ps: seq<Player>, k: nat)
    requires UniqueIds(ps)
    requires k < |TopPlayers(ps)|
    ensures MedalIcon(ps, TopPlayers(ps)[k].id) == Medals[k]
  {
    TopKeepsUnique(ps);
  }

  /** With unique ids, a player who is not in the top list gets no medal, even
      when tied with someone in it. */
  lemma NoMedalOutsideTop(ps: seq<Player>, p: Player)
    requires UniqueIds(ps)
    requires p in ps && p !in TopPlayers(ps)
    ensures MedalIcon(ps, p.id) == ""
  {
    var top := TopPlayers(ps);
    forall k | 0 <= k < |top| ensures top[k].id != p.id {
      assert top[k] in multiset(ps);
      var a :| 0 <= a < |ps| && ps[a] == top[k];
      var b :| 0 <= b < |ps| && ps[b] == p;
    }
  }
}
