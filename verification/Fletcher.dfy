/**
 The Fletcher64 checksum that validates BTT info blocks and pool headers, over 32-bit words: the
 loop that computes it, its closed form, and what damage it is sure to notice.
 */
module Fletcher {

  const WORD := 0x1_0000_0000

  newtype word = x: int | 0 <= x < 0x1_0000_0000

  /** The words as the sum sees them: the two words of the checksum field count as zero. */
  function Masked(ws: seq<word>, c: nat): (m: seq<word>)
    requires c + 2 <= |ws|
    ensures |m| == |ws|
  {
    ws[c := 0][c + 1 := 0]
  }

  /** Plain sum of the words. */
  function Sum(ws: seq<word>): int {
    if ws == [] then 0 else Sum(ws[..|ws| - 1]) + ws[|ws| - 1] as int
  }

  /** Sum of all prefix sums. */
  function SumOfSums(ws: seq<word>): int {
    if ws == [] then 0 else SumOfSums(ws[..|ws| - 1]) + Sum(ws)
  }

  function Low(ws: seq<word>): word {
    (Sum(ws) % WORD) as word
  }

  function High(ws: seq<word>): word {
    (SumOfSums(ws) % WORD) as word
  }

  /** The checksum field holds the checksum of all the other words. */
  predicate Verifies(ws: seq<word>, c: nat)
    requires c + 2 <= |ws|
  {
    ws[c] == Low(Masked(ws, c)) && ws[c + 1] == High(Masked(ws, c))
  }

  /** The words with a fresh checksum in the field. */
  function Inserted(ws: seq<word>, c: nat): (r: seq<word>)
    requires c + 2 <= |ws|
    ensures |r| == |ws|
  {
    ws[c := Low(Masked(ws, c))][c + 1 := High(Masked(ws, c))]
  }

  function AddWords(a: word, b: word): word {
    ((a as int + b as int) % WORD) as word
  }

  lemma ModStep(x: int, y: int)
    ensures (x % WORD + y) % WORD == (x + y) % WORD
    ensures (x % WORD + y % WORD) % WORD == (x + y) % WORD
  {
  }

  /** One pass over the words; with `insert` the result is stored, otherwise it is compared. */
  method Checksum(ws: array<word>, c: nat, insert: bool) returns (ok: bool)
    requires c + 2 <= ws.Length
    modifies ws
    ensures insert ==> ok && ws[..] == Inserted(old(ws[..]), c)
    ensures !insert ==> ws[..] == old(ws[..]) && ok == Verifies(ws[..], c)
  {
    var lo: word, hi: word := 0, 0;
    ghost var masked := Masked(ws[..], c);
    var p := 0;
    while p < ws.Length
      invariant 0 <= p <= ws.Length && p != c + 1
      invariant lo == Low(masked[..p]) && hi == High(masked[..p])
      invariant ws[..] == old(ws[..])
    {
      if p == c {
        Extend(masked, p);
        p, hi := p + 1, AddWords(hi, lo);
        Extend(masked, p);
        p, hi := p + 1, AddWords(hi, lo);
      } else {
        Extend(masked, p);
        lo := AddWords(lo, ws[p]);
        p, hi := p + 1, AddWords(hi, lo);
      }
    }
    assert masked[..p] == masked;
    if insert {
      ws[c], ws[c + 1] := lo, hi;
      return true;
    }
    return ws[c] == lo && ws[c + 1] == hi;
  }

  /** What one more word does to both sums. */
  lemma Extend(ws: seq<word>, p: nat)
    requires p < |ws|
    ensures Low(ws[..p + 1]) == AddWords(Low(ws[..p]), ws[p])
    ensures High(ws[..p + 1]) == AddWords(High(ws[..p]), Low(ws[..p + 1]))
  {
    assert ws[..p + 1][..p] == ws[..p];
    ModStep(Sum(ws[..p]), ws[p] as int);
    ModStep(SumOfSums(ws[..p]), Sum(ws[..p + 1]));
  }

  /** What was inserted verifies, and nothing but the checksum field was touched. */
  lemma InsertThenVerify(ws: seq<word>, c: nat)
    requires c + 2 <= |ws|
    ensures Verifies(Inserted(ws, c), c)
    ensures Masked(Inserted(ws, c), c) == Masked(ws, c)
  {
    assert Masked(Inserted(ws, c), c) == Masked(ws, c);
  }

  /** The sum as one total over the positions, each word weighted by its distance from the end. */
  function Weighted(ws: seq<word>, n: int): int {
    if ws == [] then 0
    else Weighted(ws[..|ws| - 1], n) + (n - (|ws| - 1)) * ws[|ws| - 1] as int
  }

  /** Closed form of the high half: word i counts n - i times. */
  lemma {:induction false} SumOfSumsIsWeighted(ws: seq<word>)
    ensures SumOfSums(ws) == Weighted(ws, |ws|)
  {
    if ws != [] {
      var init := ws[..|ws| - 1];
      SumOfSumsIsWeighted(init);
      WeightedMore(init, |init|);
    }
  }

  lemma {:induction false} WeightedMore(ws: seq<word>, n: int)
    ensures Weighted(ws, n + 1) == Weighted(ws, n) + Sum(ws)
  {
    if ws != [] {
      WeightedMore(ws[..|ws| - 1], n);
    }
  }

  /** The sums over the words outside the field at c: plain, and with word i counting n - i times. */
  function SumOutside(ws: seq<word>, c: nat): int {
    if ws == [] then 0
    else SumOutside(ws[..|ws| - 1], c) + if |ws| - 1 == c || |ws| - 1 == c + 1 then 0 else ws[|ws| - 1] as int
  }

  function WeightedOutside(ws: seq<word>, c: nat, n: int): int {
    if ws == [] then 0
    else WeightedOutside(ws[..|ws| - 1], c, n)
         + if |ws| - 1 == c || |ws| - 1 == c + 1 then 0 else (n - (|ws| - 1)) * ws[|ws| - 1] as int
  }

  /** Both halves of the checksum are sums over the words outside the field; what the field holds is left out. */
  lemma FieldLeftOut(ws: seq<word>, c: nat)
    requires c + 2 <= |ws|
    ensures Low(Masked(ws, c)) as int == SumOutside(ws, c) % WORD
    ensures High(Masked(ws, c)) as int == WeightedOutside(ws, c, |ws|) % WORD
  {
    MaskedSums(ws, c, |ws|, |ws|);
    assert Masked(ws, c)[..|ws|] == Masked(ws, c) && ws[..|ws|] == ws;
    SumOfSumsIsWeighted(Masked(ws, c));
  }

  lemma {:induction false} MaskedSums(ws: seq<word>, c: nat, k: nat, n: int)
    requires c + 2 <= |ws| && k <= |ws|
    ensures Sum(Masked(ws, c)[..k]) == SumOutside(ws[..k], c)
    ensures Weighted(Masked(ws, c)[..k], n) == WeightedOutside(ws[..k], c, n)
    decreases k
  {
    if k > 0 {
      MaskedSums(ws, c, k - 1, n);
      assert Masked(ws, c)[..k][..k - 1] == Masked(ws, c)[..k - 1] && ws[..k][..k - 1] == ws[..k - 1];
    }
  }

  /** Replacing one word shifts the plain sum and the weighted sum by known amounts. */
  lemma {:induction false} ReplaceOne(ws: seq<word>, i: nat, w: word, n: int)
    requires i < |ws|
    ensures Sum(ws[i := w]) == Sum(ws) + w as int - ws[i] as int
    ensures Weighted(ws[i := w], n) == Weighted(ws, n) + (n - i) * (w as int - ws[i] as int)
  {
    var last := |ws| - 1;
    if i == last {
      assert ws[i := w][..last] == ws[..last];
      assert (n - i) * w as int - (n - i) * ws[i] as int == (n - i) * (w as int - ws[i] as int);
    } else {
      assert ws[i := w][..last] == ws[..last][i := w];
      ReplaceOne(ws[..last], i, w, n);
    }
  }

  /** Damage to any single word outside the checksum field is always noticed. */
  lemma OneBadWordIsNoticed(ws: seq<word>, c: nat, i: nat, w: word)
    requires c + 2 <= |ws| && i < |ws| && i != c && i != c + 1 && w != ws[i]
    requires Verifies(ws, c)
    ensures !Verifies(ws[i := w], c)
  {
    var m := Masked(ws, c);
    assert Masked(ws[i := w], c) == m[i := w];
    ReplaceOne(m, i, w, 0);
    var d := w as int - m[i] as int;
    assert -WORD < d < WORD && d != 0;
    DifferentMod(Sum(m), d);
  }

  lemma DifferentMod(x: int, d: int)
    requires -WORD < d < WORD && d != 0
    ensures (x + d) % WORD != x % WORD
  {
  }

  /** Exchanging neighbours leaves the plain sum and moves the weighted sum by their difference. */
  lemma SwapShiftsWeighted(ws: seq<word>, i: nat)
    requires i + 1 < |ws|
    ensures SumOfSums(ws[i := ws[i + 1]][i + 1 := ws[i]]) == SumOfSums(ws) + ws[i + 1] as int - ws[i] as int
  {
    var n, d := |ws|, ws[i + 1] as int - ws[i] as int;
    ReplaceOne(ws, i, ws[i + 1], n);
    ReplaceOne(ws[i := ws[i + 1]], i + 1, ws[i], n);
    SumOfSumsIsWeighted(ws);
    SumOfSumsIsWeighted(ws[i := ws[i + 1]][i + 1 := ws[i]]);
    Telescope(n - i, d);
  }

  lemma Telescope(k: int, d: int)
    ensures k * d + (k - 1) * (-d) == d
  {
  }

  /** Exchanging two unequal neighbouring words outside the checksum field is always noticed. */
  lemma SwappedNeighboursAreNoticed(ws: seq<word>, c: nat, i: nat)
    requires c + 2 <= |ws| && i + 1 < |ws| && ws[i] != ws[i + 1]
    requires (i + 1 < c || i > c + 1) && Verifies(ws, c)
    ensures !Verifies(ws[i := ws[i + 1]][i + 1 := ws[i]], c)
  {
    var m := Masked(ws, c);
    var t := ws[i := ws[i + 1]][i + 1 := ws[i]];
    assert Masked(t, c) == m[i := m[i + 1]][i + 1 := m[i]];
    SwapShiftsWeighted(m, i);
    DifferentMod(SumOfSums(m), m[i + 1] as int - m[i] as int);
    assert High(Masked(t, c)) != High(m);
  }
}
