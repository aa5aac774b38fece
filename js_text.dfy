/** Character classes and string helpers of JavaScript that the scripts rely on:
    the `\s`, `\w` and `\d` classes of a regular expression, `toLowerCase` on the
    ASCII letters and `String.prototype.trim`. */
module JsText {
  import opened Options

  /** `\s` of a JavaScript regular expression: the ECMAScript WhiteSpace and
      LineTerminator characters. `trim` strips exactly the same set. */
  predicate IsSpace(c: char) {
    || c == '\t' || c == '\n' || c == '\U{B}' || c == '\U{C}' || c == '\r'
    || c == ' ' || c == '\U{A0}' || c == '\U{1680}'
    || ('\U{2000}' <= c <= '\U{200A}')
    || c == '\U{2028}' || c == '\U{2029}' || c == '\U{202F}' || c == '\U{205F}'
    || c == '\U{3000}' || c == '\U{FEFF}'
  }

  /** `\d` */
  predicate IsDigit(c: char) {
    '0' <= c <= '9'
  }

  /** `\w` (without the `u` and `i` flags together, it is ASCII only) */
  predicate IsWordChar(c: char) {
    ('a' <= c <= 'z') || ('A' <= c <= 'Z') || IsDigit(c) || c == '_'
  }

  /** `/\s/.test(s)` */
  predicate HasSpace(s: string) {
    s != [] && (IsSpace(s[0]) || HasSpace(s[1..]))
  }

  lemma {:induction false} HasSpaceAt(s: string)
    ensures HasSpace(s) <==> exists i | 0 <= i < |s| :: IsSpace(s[i])
  {
    if s != [] {
      HasSpaceAt(s[1..]);
      if HasSpace(s[1..]) {
        var i :| 0 <= i < |s[1..]| && IsSpace(s[1..][i]);
        assert IsSpace(s[i + 1]);
      }
      if exists i | 0 <= i < |s| :: IsSpace(s[i]) {
        var i :| 0 <= i < |s| && IsSpace(s[i]);
        if i > 0 {
          assert IsSpace(s[1..][i - 1]);
        }
      }
    }
  }

  /** Lower-casing of one character, on the ASCII letters. Every comparison the
      scripts make after `toLowerCase()` (or under the `i` flag) is against an
      ASCII word, and no non-ASCII character lower-cases to a single ASCII letter
      the comparisons can see, so the ASCII mapping decides them the same way. */
  function ToLower(c: char): (r: char)
    ensures 'A' <= c <= 'Z' ==> 'a' <= r <= 'z'
    ensures !('A' <= c <= 'Z') ==> r == c
  {
    if 'A' <= c <= 'Z' then (c as int + 32) as char else c
  }

  function LowerString(s: string): (r: string)
    ensures |r| == |s|
    ensures forall i | 0 <= i < |s| :: r[i] == ToLower(s[i])
  {
    seq(|s|, i requires 0 <= i < |s| => ToLower(s[i]))
  }

  /** The only strings whose lower-case form is "i" are "i" and "I". */
  lemma LowerIsI(s: string)
    ensures LowerString(s) == "i" <==> s == "i" || s == "I"
  {
    if LowerString(s) == "i" {
      assert |s| == 1;
      assert ToLower(s[0]) == 'i';
    }
  }

  /** `s` spells the lower-case ASCII word `w`, each letter in either case. */
  predicate CaseFoldsTo(s: string, w: string) {
    |s| == |w| && forall k | 0 <= k < |s| :: s[k] == w[k] || s[k] as int == w[k] as int - 32
  }

  /** Lower-casing gives a lower-case ASCII word exactly for the spellings
      of that word in mixed case. */
  lemma LowerIsWord(s: string, w: string)
    requires forall k | 0 <= k < |w| :: 'a' <= w[k] <= 'z'
    ensures LowerString(s) == w <==> CaseFoldsTo(s, w)
  {
    if LowerString(s) == w {
      forall k | 0 <= k < |s|
        ensures s[k] == w[k] || s[k] as int == w[k] as int - 32
      {
        assert ToLower(s[k]) == w[k];
      }
    }
    if CaseFoldsTo(s, w) {
      forall k | 0 <= k < |s|
        ensures LowerString(s)[k] == w[k]
      {
        assert ToLower(s[k]) == w[k];
      }
    }
  }

  /** The end of the longest run of characters satisfying `p` that starts at
      `i`: what a greedy `[...]*` reaches. */
  function RunEnd(s: string, i: nat, p: char -> bool): (k: nat)
    requires i <= |s|
    ensures i <= k <= |s|
    ensures forall j | i <= j < k :: p(s[j])
    ensures k == |s| || !p(s[k])
    decreases |s| - i
  {
    if i == |s| || !p(s[i]) then i else RunEnd(s, i + 1, p)
  }

  /** The start of the longest run of characters satisfying `p` that ends
      at `j` and does not reach below `lo`. */
  function RunStart(s: string, lo: nat, j: nat, p: char -> bool): (k: nat)
    requires lo <= j <= |s|
    ensures lo <= k <= j
    ensures forall m | k <= m < j :: p(s[m])
    ensures k == lo || !p(s[k - 1])
    decreases j
  {
    if j == lo || !p(s[j - 1]) then j else RunStart(s, lo, j - 1, p)
  }

  /** `r` is `s[i..j]`, and everything of `s` outside it satisfies `p`. */
  predicate TrimmedAt(s: string, r: string, i: nat, j: nat, p: char -> bool) {
    && i <= j <= |s|
    && r == s[i..j]
    && (forall k | 0 <= k < i :: p(s[k]))
    && (forall k | j <= k < |s| :: p(s[k]))
  }

  /** `String.prototype.trim`: the result is a slice of `s` with no space at
      either end, and everything cut off around it is space. */
  function Trim(s: string): (r: string)
    ensures exists i, j :: TrimmedAt(s, r, i, j, IsSpace)
    ensures r == [] || (!IsSpace(r[0]) && !IsSpace(r[|r| - 1]))
  {
    var i := RunEnd(s, 0, IsSpace);
    var j := RunStart(s, i, |s|, IsSpace);
    assert TrimmedAt(s, s[i..j], i, j, IsSpace);
    s[i..j]
  }

  /** `s[i..]` starts with `word` (given in lower case) under the `i` flag. */
  predicate StartsWithCi(s: string, i: nat, word: string) {
    i + |word| <= |s| && LowerString(s[i..i + |word|]) == word
  }

  /** The position of the leftmost match of a regular expression without the
      `g` flag, searched from `from` on; `at(s, i)` says whether (and with what
      result) the expression matches at position `i`. */
  function Leftmost<T>(s: string, at: (string, nat) -> Option<T>, from: nat): (r: Option<nat>)
    requires from <= |s| + 1
    ensures r.Some? ==> from <= r.value <= |s| && at(s, r.value).Some?
    ensures r.Some? ==> forall j | from <= j < r.value :: at(s, j).None?
    ensures r.None? ==> forall j | from <= j <= |s| :: at(s, j).None?
    decreases |s| + 1 - from
  {
    if from > |s| then None
    else if at(s, from).Some? then Some(from)
    else Leftmost(s, at, from + 1)
  }
}
