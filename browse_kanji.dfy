/** The Anki browser query the kanji script builds from a text: the kanji of
    the text, each once, in order of first occurrence, as `kanji:` terms joined
    by ` OR ` after a deck filter. */
module BrowseKanji {
  import opened TextJoin

  /** `[一-鿿]`: the CJK Unified Ideographs block. */
  predicate IsKanji(c: char) {
    '\U{4E00}' <= c <= '\U{9FFF}'
  }

  /** `re.findall(r'[一-鿿]', text)`: every kanji of the text, in
      order, repeats included. */
  function FindKanji(text: string): (r: string)
    ensures |r| <= |text|
    ensures forall i | 0 <= i < |r| :: IsKanji(r[i])
    ensures forall c :: c in r <==> c in text && IsKanji(c)
  {
    if text == [] then []
    else
      var n := |text| - 1;
      FindKanji(text[..n]) + (if IsKanji(text[n]) then [text[n]] else [])
  }

  /** A single character is kept exactly when it is a kanji. */
  lemma FindKanjiOne(c: char)
    ensures FindKanji([c]) == if IsKanji(c) then [c] else []
  {
    assert [c][..0] == [];
  }

  /** Finding kanji works piece by piece: with the one-character case, this
      fixes the result as the text's kanji in their order, repeats included. */
  lemma {:induction false} FindKanjiAppend(a: string, b: string)
    ensures FindKanji(a + b) == FindKanji(a) + FindKanji(b)
  {
    if b == [] {
      assert a + b == a;
    } else {
      var n := |b| - 1;
      assert (a + b)[..|a + b| - 1] == a + b[..n];
      assert (a + b)[|a + b| - 1] == b[n];
      FindKanjiAppend(a, b[..n]);
    }
  }

  /** Finding kanji keeps each of them as often as the text has it, and
      drops everything else. */
  lemma {:induction false} FindKanjiCounts(text: string, c: char)
    ensures multiset(FindKanji(text))[c] == if IsKanji(c) then multiset(text)[c] else 0
  {
    if text != [] {
      var n := |text| - 1;
      FindKanjiCounts(text[..n], c);
      assert multiset(text) == multiset(text[..n]) + multiset([text[n]]) by {
        assert text == text[..n] + [text[n]];
      }
    }
  }

  predicate Distinct(s: string) {
    forall i, j | 0 <= i < j < |s| :: s[i] != s[j]
  }

  /** `list(dict.fromkeys(xs))`: each element once, where it first occurs. */
  function Dedup(xs: string): (r: string)
    ensures Distinct(r)
    ensures forall c :: c in r <==> c in xs
    ensures |r| <= |xs|
  {
    if xs == [] then []
    else
      var d := Dedup(xs[..|xs| - 1]);
      var x := xs[|xs| - 1];
      if x in d then d else d + [x]
  }

  /** The index of the first occurrence of `c`, or `|xs|` when there is none. */
  function FirstIndex(xs: string, c: char): (j: nat)
    ensures j <= |xs|
    ensures j < |xs| <==> c in xs
    ensures j < |xs| ==> xs[j] == c
    ensures forall i | 0 <= i < j :: xs[i] != c
  {
    if xs == [] then 0
    else
      var n := |xs| - 1;
      var j := FirstIndex(xs[..n], c);
      if j < n then j else if xs[n] == c then n else |xs|
  }

  /** Appending a character leaves the first occurrence of a character
      already present where it was. */
  lemma FirstIndexSnoc(xs: string, y: char, c: char)
    requires c in xs
    ensures FirstIndex(xs + [y], c) == FirstIndex(xs, c)
  {
    assert (xs + [y])[..|xs|] == xs;
  }

  /** Of two kanji of the text, the one that occurs first in the text also
      occurs first among the kanji found. */
  lemma {:induction false} FindKanjiKeepsOrder(text: string, c: char, d: char)
    requires IsKanji(c) && IsKanji(d) && d in text
    requires FirstIndex(text, c) < FirstIndex(text, d)
    ensures FirstIndex(FindKanji(text), c) < FirstIndex(FindKanji(text), d)
  {
    var n := |text| - 1;
    var pre := text[..n];
    PrefixOrder(text, c, d);
    if d in pre {
      FindKanjiKeepsOrder(pre, c, d);
    }
    OrderAfterAppend(FindKanji(pre), if IsKanji(text[n]) then [text[n]] else [], c, d);
  }

  /** What the order of `c` before `d` in a text says about the text
      without its last character. */
  lemma PrefixOrder(text: string, c: char, d: char)
    requires IsKanji(c) && IsKanji(d) && d in text
    requires FirstIndex(text, c) < FirstIndex(text, d)
    ensures var pre := text[..|text| - 1];
      && c in FindKanji(pre)
      && (d in pre ==> FirstIndex(pre, c) < FirstIndex(pre, d))
      && (d !in pre ==> d == text[|text| - 1] && d !in FindKanji(pre))
  {
    var pre := text[..|text| - 1];
    assert c in pre && FirstIndex(text, c) == FirstIndex(pre, c);
    if d in pre {
      assert FirstIndex(text, d) == FirstIndex(pre, d);
    }
  }

  /** Appending at most one character keeps the order of the characters
      already present, and puts a new one after all of them. */
  lemma OrderAfterAppend(xs: string, tail: string, c: char, d: char)
    requires c in xs && |tail| <= 1
    requires d in xs ==> FirstIndex(xs, c) < FirstIndex(xs, d)
    requires d !in xs ==> tail == [d]
    ensures FirstIndex(xs + tail, c) < FirstIndex(xs + tail, d)
  {
    if tail == [] {
      assert xs + tail == xs;
    } else {
      FirstIndexSnoc(xs, tail[0], c);
      if d in xs {
        FirstIndexSnoc(xs, tail[0], d);
      } else {
        assert (xs + tail)[|xs|] == d;
      }
    }
  }

  /** `findall` keeps the order of the text: of two kanji in it, one occurs
      first in the text exactly when it occurs first among the kanji found. */
  lemma FindKanjiOrder(text: string, c: char, d: char)
    requires IsKanji(c) && IsKanji(d) && c in text && d in text
    ensures FirstIndex(text, c) < FirstIndex(text, d)
            <==> FirstIndex(FindKanji(text), c) < FirstIndex(FindKanji(text), d)
  {
    if FirstIndex(text, c) < FirstIndex(text, d) {
      FindKanjiKeepsOrder(text, c, d);
    } else if c != d {
      assert FirstIndex(text, c) != FirstIndex(text, d);
      FindKanjiKeepsOrder(text, d, c);
    }
  }

  /** The de-duplicated list follows the order of first occurrence. */
  lemma {:induction false} DedupOrder(xs: string, p: nat, q: nat)
    requires p < q < |Dedup(xs)|
    ensures FirstIndex(xs, Dedup(xs)[p]) < FirstIndex(xs, Dedup(xs)[q])
  {
    var n := |xs| - 1;
    var pre := xs[..n];
    var d := Dedup(pre);
    var r := Dedup(xs);
    assert r[p] == d[p] && r[p] in pre;
    assert FirstIndex(pre, r[p]) < n;
    if q < |d| {
      DedupOrder(pre, p, q);
      assert r[q] == d[q] && r[q] in pre;
      assert FirstIndex(pre, r[q]) < n;
    } else {
      assert r[q] == xs[n] && xs[n] !in pre;
      assert FirstIndex(pre, xs[n]) == n;
    }
  }

  /** `"deck:漢字 "` */
  const DeckFilter := "deck:\U{6F22}\U{5B57} "

  const Separator := " OR "

  /** `f"kanji:{k}"` */
  function Term(k: char): string {
    "kanji:" + [k]
  }

  function Terms(ks: string): (ts: seq<string>)
    ensures |ts| == |ks|
    ensures forall i | 0 <= i < |ks| :: ts[i] == Term(ks[i])
  {
    seq(|ks|, i requires 0 <= i < |ks| => Term(ks[i]))
  }

  /** The query for the kanji `ks`. */
  function QueryOf(ks: string): string {
    DeckFilter + Join(Terms(ks), Separator)
  }

  /** The query for a text. */
  function Query(text: string): string {
    QueryOf(Dedup(FindKanji(text)))
  }

  /** Every term takes 7 characters and every separator 4: the `i`th term
      starts at `11 * i`, and a separator follows each term but the last. */
  lemma {:induction false} JoinShape(ks: string)
    ensures var b := Join(Terms(ks), Separator);
      && |b| == (if ks == [] then 0 else 11 * |ks| - 4)
      && (forall i | 0 <= i < |ks| :: b[11 * i..11 * i + 7] == Term(ks[i]))
      && (forall i | 0 <= i < |ks| - 1 :: b[11 * i + 7..11 * i + 11] == Separator)
  {
    var n := |ks|;
    if n == 1 {
      assert Terms(ks) == [Term(ks[0])];
    } else if n > 1 {
      var pre := ks[..n - 1];
      JoinShape(pre);
      JoinTermsSnoc(ks);
      var b0 := Join(Terms(pre), Separator);
      assert pre + [ks[n - 1]] == ks;
      TermsExtend(pre, ks[n - 1], b0);
      SeparatorsExtend(pre, ks[n - 1], b0);
    }
  }

  /** One more term keeps the earlier terms where they were and puts the new
      one 11 characters after the last. */
  lemma TermsExtend(pre: string, k: char, b0: string)
    requires pre != [] && |b0| == 11 * |pre| - 4
    requires forall i | 0 <= i < |pre| :: b0[11 * i..11 * i + 7] == Term(pre[i])
    ensures var b, ks := b0 + (Separator + Term(k)), pre + [k];
      forall i | 0 <= i < |ks| :: b[11 * i..11 * i + 7] == Term(ks[i])
  {
    var n := |pre|;
    var tail := Separator + Term(k);
    forall i | 0 <= i <= n
      ensures (b0 + tail)[11 * i..11 * i + 7] == Term((pre + [k])[i])
    {
      if i < n {
        SliceOfFront(b0, tail, 11 * i, 11 * i + 7);
      } else {
        SliceOfBack(b0, tail, 11 * i, 11 * i + 7);
        assert tail[4..] == Term(k);
      }
    }
  }

  /** One more term keeps the earlier separators and adds one before it. */
  lemma SeparatorsExtend(pre: string, k: char, b0: string)
    requires pre != [] && |b0| == 11 * |pre| - 4
    requires forall i | 0 <= i < |pre| - 1 :: b0[11 * i + 7..11 * i + 11] == Separator
    ensures var b := b0 + (Separator + Term(k));
      forall i | 0 <= i < |pre| :: b[11 * i + 7..11 * i + 11] == Separator
  {
    var n := |pre|;
    var tail := Separator + Term(k);
    forall i | 0 <= i < n
      ensures (b0 + tail)[11 * i + 7..11 * i + 11] == Separator
    {
      if i < n - 1 {
        SliceOfFront(b0, tail, 11 * i + 7, 11 * i + 11);
      } else {
        SliceOfBack(b0, tail, 11 * i + 7, 11 * i + 11);
        assert tail[..4] == Separator;
      }
    }
  }

  /** Joining one more term appends a separator and that term. */
  lemma JoinTermsSnoc(ks: string)
    requires |ks| > 1
    ensures Join(Terms(ks), Separator)
            == Join(Terms(ks[..|ks| - 1]), Separator) + (Separator + Term(ks[|ks| - 1]))
  {
    var n := |ks|;
    assert Terms(ks) == Terms(ks[..n - 1]) + [Term(ks[n - 1])];
    JoinSnoc(Terms(ks[..n - 1]), Term(ks[n - 1]), Separator);
  }

  /** A slice that lies inside the back part of a concatenation. */
  lemma SliceOfBack(a: string, b: string, lo: nat, hi: nat)
    requires |a| <= lo <= hi <= |a| + |b|
    ensures (a + b)[lo..hi] == b[lo - |a|..hi - |a|]
  {
    assert forall k | lo <= k < hi :: (a + b)[k] == b[k - |a|];
  }

  /** A slice that lies inside the front part of a concatenation. */
  lemma SliceOfFront(a: string, b: string, lo: nat, hi: nat)
    requires lo <= hi <= |a|
    ensures (a + b)[lo..hi] == a[lo..hi]
  {
    assert forall k | lo <= k < hi :: (a + b)[k] == a[k];
  }

  /** Reads the kanji back off a query: the character after each `kanji:`. */
  function KanjiOfQuery(q: string): (ks: string)
    ensures |q| <= |DeckFilter| ==> ks == []
  {
    if |q| <= |DeckFilter| then []
    else
      var n := (|q| - |DeckFilter| + 4) / 11;
      seq(n, i requires 0 <= i < n => if 14 + 11 * i < |q| then q[14 + 11 * i] else ' ')
  }

  /** The query starts with the deck filter and gives back exactly the kanji
      it was built from, in order. */
  lemma QueryRoundTrip(ks: string)
    ensures |QueryOf(ks)| == |DeckFilter| + (if ks == [] then 0 else 11 * |ks| - 4)
    ensures QueryOf(ks)[..|DeckFilter|] == DeckFilter
    ensures KanjiOfQuery(QueryOf(ks)) == ks
  {
    var b := Join(Terms(ks), Separator);
    var q := QueryOf(ks);
    JoinShape(ks);
    forall i | 0 <= i < |ks|
      ensures q[14 + 11 * i] == ks[i]
    {
      assert b[11 * i..11 * i + 7][6] == Term(ks[i])[6];
    }
    if ks != [] {
      KanjiOfQueryAt(q, |ks|);
    }
  }

  /** A query of `n` terms is read back at the seventh character of each. */
  lemma KanjiOfQueryAt(q: string, n: nat)
    requires n > 0 && |q| == |DeckFilter| + 11 * n - 4
    ensures |KanjiOfQuery(q)| == n
    ensures forall i | 0 <= i < n :: KanjiOfQuery(q)[i] == q[14 + 11 * i]
  {
    assert (|q| - |DeckFilter| + 4) / 11 == n;
  }

  /** A text without kanji gives the bare deck filter, trailing space included. */
  lemma NoKanjiQuery(text: string)
    requires forall i | 0 <= i < |text| :: !IsKanji(text[i])
    ensures Query(text) == DeckFilter
  {
    FindNoKanji(text);
  }

  lemma {:induction false} FindNoKanji(text: string)
    requires forall i | 0 <= i < |text| :: !IsKanji(text[i])
    ensures FindKanji(text) == []
  {
    if text != [] {
      FindNoKanji(text[..|text| - 1]);
    }
  }

  /** The query lists each kanji of the text exactly once, in order of first
      occurrence in the text, and nothing else. */
  lemma QueryLists(text: string)
    ensures var ks := KanjiOfQuery(Query(text));
      && Distinct(ks)
      && (forall c :: c in ks <==> c in text && IsKanji(c))
      && (forall p, q | 0 <= p < q < |ks| :: FirstIndex(text, ks[p]) < FirstIndex(text, ks[q]))
  {
    var found := FindKanji(text);
    var ks := Dedup(found);
    QueryRoundTrip(ks);
    forall p, q | 0 <= p < q < |ks|
      ensures FirstIndex(text, ks[p]) < FirstIndex(text, ks[q])
    {
      DedupOrder(found, p, q);
      assert ks[p] in found && ks[q] in found;
      FindKanjiOrder(text, ks[p], ks[q]);
    }
  }
}
