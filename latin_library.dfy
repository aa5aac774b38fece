/** The two rewrites the Latin Library user script applies to the page's HTML
    text: deleting every `&nbsp;`, then dropping the quotes around attribute
    values that contain no whitespace. */
module LatinLibrary {
  import opened JsText
  import opened Options

  const Nbsp := "&nbsp;"

  /** `html.replace(/&nbsp;/g, '')`: one left-to-right pass that deletes each
      occurrence it meets and resumes after it. */
  function RemoveNbsp(s: string): (r: string)
    ensures |r| <= |s|
  {
    if |s| >= 6 && s[..6] == Nbsp then RemoveNbsp(s[6..])
    else if s == [] then []
    else [s[0]] + RemoveNbsp(s[1..])
  }

  /** Each deletion takes out six characters. */
  lemma {:induction false} RemoveNbspLength(s: string)
    ensures (|s| - |RemoveNbsp(s)|) % 6 == 0
  {
    if |s| >= 6 && s[..6] == Nbsp {
      RemoveNbspLength(s[6..]);
    } else if s != [] {
      RemoveNbspLength(s[1..]);
    }
  }

  predicate NbspAt(s: string, i: nat) {
    i + 6 <= |s| && s[i..i + 6] == Nbsp
  }

  /** Text without `&nbsp;` passes through unchanged. */
  lemma {:induction false} RemoveNbspNoOccurrence(s: string)
    requires forall i | 0 <= i <= |s| :: !NbspAt(s, i)
    ensures RemoveNbsp(s) == s
  {
    if s != [] {
      assert !NbspAt(s, 0);
      forall i | 0 <= i <= |s[1..]|
        ensures !NbspAt(s[1..], i)
      {
        assert !NbspAt(s, i + 1);
        if i + 6 <= |s[1..]| {
          assert s[1..][i..i + 6] == s[i + 1..i + 7];
        }
      }
      RemoveNbspNoOccurrence(s[1..]);
    }
  }

  /** No proper suffix of `&nbsp;` starts it again: a text ending in part of
      an `&nbsp;` cannot run on into the next one. */
  lemma NoBorder(a: string, t: string)
    requires 0 < |a| < 6 && |t| >= 6 && t[..6] == Nbsp
    ensures (a + t)[..6] != Nbsp
  {
    assert (a + t)[|a|] == '&';
  }

  /** The pass deletes an occurrence wherever it stands and treats the text
      on either side of it on its own. */
  lemma {:induction false} RemoveNbspSplits(a: string, b: string)
    ensures RemoveNbsp(a + Nbsp + b) == RemoveNbsp(a) + RemoveNbsp(b)
  {
    var t := Nbsp + b;
    assert a + Nbsp + b == a + t;
    if a == [] {
      assert t[..6] == Nbsp && t[6..] == b;
    } else {
      var k, kept := RemoveNbspFront(a, t);
      assert a[k..] + t == a[k..] + Nbsp + b;
      RemoveNbspSplits(a[k..], b);
    }
  }

  /** Before an occurrence, the pass handles a non-empty front part as it
      would on its own: it skips an occurrence at its start, and keeps its
      first character otherwise. */
  lemma RemoveNbspFront(a: string, t: string) returns (k: nat, kept: string)
    requires a != [] && |t| >= 6 && t[..6] == Nbsp
    ensures 0 < k <= |a|
    ensures RemoveNbsp(a) == kept + RemoveNbsp(a[k..])
    ensures RemoveNbsp(a + t) == kept + RemoveNbsp(a[k..] + t)
  {
    if |a| >= 6 && a[..6] == Nbsp {
      SplitFront(a, t, 6);
      k, kept := 6, [];
    } else {
      if |a| >= 6 {
        SplitFront(a, t, 6);
      } else {
        NoBorder(a, t);
      }
      SplitFront(a, t, 1);
      k, kept := 1, [a[0]];
    }
  }

  /** Cutting a concatenation inside its front part. */
  lemma SplitFront(a: string, b: string, k: nat)
    requires k <= |a|
    ensures (a + b)[..k] == a[..k] && (a + b)[k..] == a[k..] + b
  {
  }

  /** One pass is not enough to remove them all: deleting an inner
      occurrence can join its neighbours into a new one. */
  lemma RemoveNbspNotIdempotent()
    ensures RemoveNbsp("&nb&nbsp;sp;") == "&nbsp;"
    ensures RemoveNbsp(RemoveNbsp("&nb&nbsp;sp;")) == ""
  {
    assert "&nb&nbsp;sp;" == "&nb" + Nbsp + "sp;";
    assert "&nb" + "sp;" == Nbsp;
    RemoveNbspNoOccurrence("&nb");
    RemoveNbspNoOccurrence("sp;");
    RemoveNbspSplits("&nb", "sp;");
    assert Nbsp[..6] == Nbsp && Nbsp[6..] == [];
  }

  // ---- Unquoting attribute values ----

  /** A match of `(\w+)="([^"]*?)"` at the start of a text: the name is
      `s[..nameEnd]`, the value `s[nameEnd + 2..closeQuote]`. */
  datatype AttrMatch = AttrMatch(nameEnd: nat, closeQuote: nat)

  /** `m` is a match of `(\w+)="([^"]*?)"` at the start of `s`. */
  predicate IsAttrMatch(s: string, m: AttrMatch) {
    && 0 < m.nameEnd
    && m.nameEnd + 2 <= m.closeQuote < |s|
    && (forall k | 0 <= k < m.nameEnd :: IsWordChar(s[k]))
    && s[m.nameEnd] == '=' && s[m.nameEnd + 1] == '"'
    && s[m.closeQuote] == '"'
    && (forall k | m.nameEnd + 2 <= k < m.closeQuote :: s[k] != '"')
  }

  /** Where `(\w+)="([^"]*?)"` matches at the start of `s`, if it does: the
      name is the word run at the start, and the lazy value stops at the
      first quote after `="`. */
  function AttrAt(s: string): (r: Option<AttrMatch>)
    ensures r.Some? ==> 0 < r.value.nameEnd && r.value.nameEnd + 2 <= r.value.closeQuote < |s|
  {
    var e := RunEnd(s, 0, IsWordChar);
    var q := if e + 2 <= |s| then RunEnd(s, e + 2, c => c != '"') else e;
    if 0 < e && e + 2 <= |s| && s[e] == '=' && s[e + 1] == '"' && q < |s| then Some(AttrMatch(e, q))
    else None
  }

  /** `AttrAt` finds a match exactly when there is one, and there is at most
      one: `\w+` cannot stop early, because `=` is not a word character, and
      the lazy value stops at the first quote after `="`. */
  lemma AttrAtMatches(s: string)
    ensures AttrAt(s).Some? ==> IsAttrMatch(s, AttrAt(s).value)
    ensures forall m | IsAttrMatch(s, m) :: AttrAt(s) == Some(m)
  {
    var e := RunEnd(s, 0, IsWordChar);
    var q := if e + 2 <= |s| then RunEnd(s, e + 2, c => c != '"') else e;
    OnlyMatch(s, e, q);
  }

  /** Any match ends its name where the word run ends and its value at the
      first quote after it. */
  lemma OnlyMatch(s: string, e: nat, q: nat)
    requires e == RunEnd(s, 0, IsWordChar)
    requires q == if e + 2 <= |s| then RunEnd(s, e + 2, c => c != '"') else e
    ensures forall m | IsAttrMatch(s, m) :: m == AttrMatch(e, q)
  {
  }

  /** 1 when the callback takes the quotes off the match, 0 when it keeps
      the match as it is: only a value without whitespace loses its quotes. */
  function Stripped(s: string, m: AttrMatch): nat
    requires m.nameEnd + 2 <= m.closeQuote < |s|
  {
    if HasSpace(s[m.nameEnd + 2..m.closeQuote]) then 0 else 1
  }

  /** What the callback returns for a match: `attr=value` when the value
      has no whitespace, the match itself otherwise. */
  function Replacement(s: string, m: AttrMatch): (r: string)
    requires m.nameEnd + 2 <= m.closeQuote < |s|
    ensures |r| + 2 * Stripped(s, m) == m.closeQuote + 1
    ensures Stripped(s, m) == 0 ==> r == s[..m.closeQuote + 1]
  {
    var value := s[m.nameEnd + 2..m.closeQuote];
    if !HasSpace(value) then s[..m.nameEnd] + "=" + value else s[..m.closeQuote + 1]
  }

  /** 1 when the search finds a match at the start of `s` and unquotes it,
      0 otherwise. */
  function StepCount(s: string): nat
    requires s != []
  {
    var m := AttrAt(s);
    if m.Some? then Stripped(s, m.value) else 0
  }

  /** The number of matches the pass unquotes. */
  function UnquotedCount(s: string): nat
    decreases |s|
  {
    if s == [] then 0 else StepCount(s) + UnquotedCount(s[Step(s).1..])
  }

  /** `html.replace(/(\w+)="([^"]*?)"/g, callback)`: the global search
      resumes right after each match and moves on one character where
      there is none. */
  function Unquote(s: string): (r: string)
    decreases |s|
  {
    if s == [] then [] else Step(s).0 + Unquote(s[Step(s).1..])
  }

  /** One step of the search at the start of a non-empty text: what it
      writes to the output and how far it moves on. */
  function Step(s: string): (r: (string, nat))
    requires s != []
    ensures 0 < r.1 <= |s|
    ensures |r.0| + 2 * StepCount(s) == r.1
  {
    var m := AttrAt(s);
    if m.Some? then (Replacement(s, m.value), m.value.closeQuote + 1) else ([s[0]], 1)
  }

  /** Each unquoted match loses its two quotes; every other character, inside
      kept matches and between matches, stays, so the text shrinks by exactly
      two characters per unquoted match. */
  lemma {:induction false} UnquoteLength(s: string)
    ensures |Unquote(s)| + 2 * UnquotedCount(s) == |s|
    decreases |s|
  {
    if s != [] {
      var rest := s[Step(s).1..];
      UnquoteLength(rest);
      assert |Unquote(s)| == |Step(s).0| + |Unquote(rest)|;
    }
  }

  /** The text with every `"` taken out. */
  function DropQuotes(s: string): (r: string)
    ensures '"' !in r
  {
    if s == [] then [] else (if s[0] == '"' then [] else [s[0]]) + DropQuotes(s[1..])
  }

  lemma {:induction false} DropQuotesConcat(a: string, b: string)
    ensures DropQuotes(a + b) == DropQuotes(a) + DropQuotes(b)
  {
    if a != [] {
      var head := if a[0] == '"' then [] else [a[0]];
      assert (a + b)[0] == a[0];
      assert (a + b)[1..] == a[1..] + b;
      DropQuotesConcat(a[1..], b);
      calc {
        DropQuotes(a + b);
        head + DropQuotes(a[1..] + b);
        head + (DropQuotes(a[1..]) + DropQuotes(b));
        (head + DropQuotes(a[1..])) + DropQuotes(b);
      }
    } else {
      assert a + b == b;
    }
  }

  lemma {:induction false} DropQuotesNone(s: string)
    requires '"' !in s
    ensures DropQuotes(s) == s
  {
    if s != [] {
      DropQuotesNone(s[1..]);
    }
  }

  /** Taking out a pair of quotes around `y` changes nothing once quotes
      are dropped. */
  lemma DropQuotePair(x: string, y: string)
    ensures DropQuotes(x + "\"" + y + "\"") == DropQuotes(x + y)
  {
    assert DropQuotes("\"") == [];
    DropQuotesConcat(x + "\"" + y, "\"");
    DropQuotesConcat(x + "\"", y);
    DropQuotesConcat(x, "\"");
    DropQuotesConcat(x, y);
  }

  /** A match and its replacement hold the same characters besides quotes. */
  lemma ReplacementKeepsText(s: string, m: AttrMatch)
    requires IsAttrMatch(s, m)
    ensures DropQuotes(Replacement(s, m)) == DropQuotes(s[..m.closeQuote + 1])
  {
    var e, q := m.nameEnd, m.closeQuote;
    var value := s[e + 2..q];
    if !HasSpace(value) {
      assert s[..q + 1] == s[..e] + "=" + "\"" + value + "\"";
      DropQuotePair(s[..e] + "=", value);
    }
  }

  /** An unquoted match gets its quotes back by putting one after the `=`
      and one at the end: the callback only takes out those two quotes. */
  lemma ReplacementRequotes(s: string, m: AttrMatch)
    requires IsAttrMatch(s, m) && Stripped(s, m) == 1
    ensures var r, e := Replacement(s, m), m.nameEnd;
      r[..e + 1] + "\"" + r[e + 1..] + "\"" == s[..m.closeQuote + 1]
  {
    var e, q := m.nameEnd, m.closeQuote;
    var r := Replacement(s, m);
    assert r[..e + 1] == s[..e] + "=" && r[e + 1..] == s[e + 2..q];
    assert s[..q + 1] == s[..e] + "=" + "\"" + s[e + 2..q] + "\"";
  }

  /** The pass removes quotes and nothing else: every other character stays,
      in order. */
  lemma {:induction false} UnquoteKeepsText(s: string)
    ensures DropQuotes(Unquote(s)) == DropQuotes(s)
    decreases |s|
  {
    if s != [] {
      var n := Step(s).1;
      UnquoteKeepsText(s[n..]);
      StepKeepsText(s);
      DropQuotesConcat(Step(s).0, Unquote(s[n..]));
      DropQuotesSplit(s, n);
    }
  }

  lemma DropQuotesSplit(s: string, n: nat)
    requires n <= |s|
    ensures DropQuotes(s) == DropQuotes(s[..n]) + DropQuotes(s[n..])
  {
    assert s == s[..n] + s[n..];
    DropQuotesConcat(s[..n], s[n..]);
  }

  /** What one step writes holds the same characters besides quotes as the
      text it moves over. */
  lemma StepKeepsText(s: string)
    requires s != []
    ensures DropQuotes(Step(s).0) == DropQuotes(s[..Step(s).1])
  {
    var m := AttrAt(s);
    if m.Some? {
      AttrAtMatches(s);
      ReplacementKeepsText(s, m.value);
    } else {
      assert s[..1] == [s[0]];
    }
  }

  /** Text where the pattern matches nowhere passes through unchanged. */
  lemma {:induction false} UnquoteNoMatch(s: string)
    requires forall i | 0 <= i < |s| :: AttrAt(s[i..]).None?
    ensures Unquote(s) == s
    decreases |s|
  {
    if s != [] {
      assert s[0..] == s;
      forall i | 0 <= i < |s[1..]|
        ensures AttrAt(s[1..][i..]).None?
      {
        assert s[1..][i..] == s[i + 1..];
      }
      UnquoteNoMatch(s[1..]);
    }
  }

  /** A text that is one whole match is rewritten as that match alone. */
  lemma UnquoteWhole(s: string, m: AttrMatch)
    requires IsAttrMatch(s, m) && m.closeQuote == |s| - 1
    ensures Unquote(s) == Replacement(s, m)
  {
    AttrAtMatches(s);
    assert AttrAt(s) == Some(m);
    assert s[|s|..] == [];
    assert Replacement(s, m) + [] == Replacement(s, m);
  }

  /** A lone attribute `name="value"`: it becomes `name=value` when the
      value has no whitespace and stays as it is otherwise. */
  lemma UnquoteOne(name: string, value: string)
    requires name != [] && forall k | 0 <= k < |name| :: IsWordChar(name[k])
    requires '"' !in value
    ensures Unquote(name + "=\"" + value + "\"")
            == if HasSpace(value) then name + "=\"" + value + "\"" else name + "=" + value
  {
    var s := name + "=\"" + value + "\"";
    LoneAttrMatches(name, value);
    UnquoteWhole(s, AttrMatch(|name|, |s| - 1));
  }

  /** `name="value"` is one whole match, with that name and that value. */
  lemma LoneAttrMatches(name: string, value: string)
    requires name != [] && forall k | 0 <= k < |name| :: IsWordChar(name[k])
    requires '"' !in value
    ensures var s := name + "=\"" + value + "\"";
      && IsAttrMatch(s, AttrMatch(|name|, |s| - 1))
      && s[..|name|] == name && s[|name| + 2..|s| - 1] == value && s[..|s|] == s
  {
    var s := name + "=\"" + value + "\"";
    var e, q := |name|, |s| - 1;
    assert s[..e] == name && s[e + 2..q] == value && s[..q + 1] == s by {
      assert s == name + "=\"" + value + "\"";
    }
    assert IsAttrMatch(s, AttrMatch(e, q)) by {
      assert forall k | 0 <= k < e :: s[k] == name[k];
      assert forall k | e + 2 <= k < q :: s[k] == value[k - e - 2];
    }
  }

  /** An empty value has no whitespace, so `x=""` becomes `x=`. */
  lemma EmptyValueLosesQuotes()
    ensures Unquote("x=\"\"") == "x="
  {
    assert !HasSpace("");
    assert "x" + "=\"" + "" + "\"" == "x=\"\"";
    assert "x" + "=" + "" == "x=";
    UnquoteOne("x", "");
  }

  /** A run that satisfies `p` up to `k`, where `p` fails, ends at `k`. */
  lemma RunEndStops(s: string, i: nat, k: nat, p: char -> bool)
    requires i <= k <= |s|
    requires forall j | i <= j < k :: p(s[j])
    requires k == |s| || !p(s[k])
    ensures RunEnd(s, i, p) == k
    decreases k - i
  {
    if i < k {
      RunEndStops(s, i + 1, k, p);
    }
  }
}
