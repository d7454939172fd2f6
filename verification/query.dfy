/** `order_by(desc(Favorito.data_insercao)).limit(n)`: the newest `n`
    favorites, newest first.

    SQL leaves the order of rows with equal timestamps open; `Newest` picks
    one such order (an insertion sort) and its contract states only what the
    query guarantees for every order it may pick. */
module Query {
  import opened Favoritos

  /** Non-increasing `data_insercao` from front to back. */
  ghost predicate NewestFirst(fs: seq<Favorito>) {
    forall i, j :: 0 <= i < j < |fs| ==> fs[j].dataInsercao <= fs[i].dataInsercao
  }

  /** `r` takes rows of `fs` (with multiplicity), and every row of `fs`
      strictly newer than the last row of `r` is in `r` as often as in `fs`. */
  ghost predicate NewestSlice(r: seq<Favorito>, fs: seq<Favorito>) {
    && multiset(r) <= multiset(fs)
    && forall g :: g in fs && |r| > 0 && r[|r| - 1].dataInsercao < g.dataInsercao ==>
         multiset(r)[g] == multiset(fs)[g]
  }

  function InsertByTime(f: Favorito, fs: seq<Favorito>): (r: seq<Favorito>)
    requires NewestFirst(fs)
    ensures NewestFirst(r)
    ensures multiset(r) == multiset(fs) + multiset{f}
  {
    if |fs| == 0 then [f]
    else if fs[0].dataInsercao <= f.dataInsercao then [f] + fs
    else
      var rest := InsertByTime(f, fs[1..]);
      assert fs == [fs[0]] + fs[1..];
      forall g | g in rest ensures g.dataInsercao <= fs[0].dataInsercao {
        assert g in multiset(rest);
      }
      ConsKeepsNewestFirst(fs[0], rest);
      [fs[0]] + rest
  }

  /** A row no older than any row of a newest-first sequence can head it. */
  lemma ConsKeepsNewestFirst(f: Favorito, fs: seq<Favorito>)
    requires NewestFirst(fs)
    requires forall g :: g in fs ==> g.dataInsercao <= f.dataInsercao
    ensures NewestFirst([f] + fs)
  {
    forall i, j | 0 <= i < j < |[f] + fs| ensures ([f] + fs)[j].dataInsercao <= ([f] + fs)[i].dataInsercao {
      assert ([f] + fs)[j] == fs[j - 1];
      if i > 0 { assert ([f] + fs)[i] == fs[i - 1]; }
    }
  }

  /** `ORDER BY data_insercao DESC` over the whole table. */
  function SortNewestFirst(fs: seq<Favorito>): (r: seq<Favorito>)
    ensures NewestFirst(r)
    ensures multiset(r) == multiset(fs)
  {
    if |fs| == 0 then []
    else
      assert fs == [fs[0]] + fs[1..];
      InsertByTime(fs[0], SortNewestFirst(fs[1..]))
  }

  /** `ORDER BY data_insercao DESC LIMIT n`: min(n, |fs|) rows of the table,
      newest first, and no row left out is strictly newer than a row kept. */
  function Newest(fs: seq<Favorito>, n: nat): (r: seq<Favorito>)
    ensures |r| == if |fs| < n then |fs| else n
    ensures NewestFirst(r)
    ensures NewestSlice(r, fs)
  {
    var s := SortNewestFirst(fs);
    var k := if |fs| < n then |fs| else n;
    SortedPrefixIsNewest(s, k);
    s[..k]
  }

  /** A prefix of a newest-first sequence is newest-first and holds the
      newest rows of the sequence. */
  lemma SortedPrefixIsNewest(s: seq<Favorito>, k: nat)
    requires NewestFirst(s) && k <= |s|
    ensures NewestFirst(s[..k])
    ensures NewestSlice(s[..k], s)
  {
    var front: seq<Favorito> := s[..k];
    var back: seq<Favorito> := s[k..];
    assert s == front + back;
    assert multiset(s) == multiset(front) + multiset(back);
    forall g | g in s && k > 0 && front[k - 1].dataInsercao < g.dataInsercao
      ensures multiset(front)[g] == multiset(s)[g]
    {
      NewerIsNotBehind(s, k, g);
    }
  }

  /** In a newest-first sequence, a row strictly newer than the row at
      `k - 1` does not occur from `k` on. */
  lemma NewerIsNotBehind(s: seq<Favorito>, k: nat, g: Favorito)
    requires NewestFirst(s) && 0 < k <= |s|
    requires s[k - 1].dataInsercao < g.dataInsercao
    ensures multiset(s[k..])[g] == 0
  {
    forall j | k <= j < |s| ensures s[j] != g {
      assert s[j].dataInsercao <= s[k - 1].dataInsercao;
    }
    assert g !in s[k..];
  }

  /** Every row of the table strictly newer than the oldest row returned is
      itself returned: a corollary of `Newest`'s contract, stated for a
      single row. */
  lemma NewerRowsAreReturned(fs: seq<Favorito>, n: nat, g: Favorito)
    requires g in fs
    ensures var r := Newest(fs, n);
            |r| > 0 && r[|r| - 1].dataInsercao < g.dataInsercao ==> g in r
  {
    var r := Newest(fs, n);
    if |r| > 0 && r[|r| - 1].dataInsercao < g.dataInsercao {
      assert multiset(r)[g] == multiset(fs)[g];
    }
  }
}
