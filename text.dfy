/** String helpers with the behaviour of the Python 2 `str` methods the ledger uses:
    `upper`, `split(sep)`, `split()`, `strip`, `join`, `rjust`, `ljust`, `translate(None, chars)`
    and the ordering `<` on strings. */
module Text {

  /** The characters Python 2 treats as whitespace in `str.split()` and `str.strip()`: the
      space, and tab, line feed, vertical tab, form feed and carriage return (codes 9 to 13). */
  predicate IsSpace(c: char) {
    c == ' ' || '\t' <= c <= '\r'
  }

  /** ASCII upper-casing of one character. */
  function UpperChar(c: char): (u: char)
    ensures 'a' <= c <= 'z' ==> u as int == c as int - 32
    ensures !('a' <= c <= 'z') ==> u == c
  {
    if 'a' <= c <= 'z' then (c as int - 32) as char else c
  }

  /** `s.upper()`. */
  function Upper(s: string): (u: string)
    ensures |u| == |s|
    ensures forall i :: 0 <= i < |s| ==> u[i] == UpperChar(s[i])
  {
    seq(|s|, i requires 0 <= i < |s| => UpperChar(s[i]))
  }

  lemma UpperIdempotent(s: string)
    ensures Upper(Upper(s)) == Upper(s)
  {
  }

  /** Upper-casing neither adds nor removes a character that is not a letter. */
  lemma UpperKeeps(s: string, c: char)
    requires !('a' <= c <= 'z')
    requires !('A' <= c <= 'Z')
    ensures c in Upper(s) <==> c in s
  {
    if c in Upper(s) {
      var i :| 0 <= i < |s| && Upper(s)[i] == c;
      assert s[i] == c;
    }
    if c in s {
      var i :| 0 <= i < |s| && s[i] == c;
      assert Upper(s)[i] == c;
    }
  }

  /** `s.split(sep)` for a one-character separator: the pieces between separators,
      always at least one, possibly empty. */
  function Split(s: string, sep: char): (parts: seq<string>)
    ensures |parts| >= 1
    ensures forall i :: 0 <= i < |parts| ==> sep !in parts[i]
  {
    if s == [] then [""]
    else
      var rest := Split(s[1..], sep);
      if s[0] == sep then [""] + rest else [[s[0]] + rest[0]] + rest[1..]
  }

  /** `sep.join(parts)`. */
  function Join(parts: seq<string>, sep: string): string {
    if |parts| == 0 then ""
    else if |parts| == 1 then parts[0]
    else parts[0] + sep + Join(parts[1..], sep)
  }

  lemma {:induction false} JoinSplit(s: string, sep: char)
    ensures Join(Split(s, sep), [sep]) == s
  {
    if s != [] {
      JoinSplit(s[1..], sep);
      var rest := Split(s[1..], sep);
      if s[0] != sep {
        if |rest| > 1 {
          assert ([s[0]] + rest[0]) + [sep] + Join(rest[1..], [sep])
              == [s[0]] + (rest[0] + [sep] + Join(rest[1..], [sep]));
        }
      }
    }
  }

  lemma {:induction false} SplitCons(c: char, s: string, sep: char)
    requires c != sep
    ensures Split([c] + s, sep) == [[c] + Split(s, sep)[0]] + Split(s, sep)[1..]
  {
    assert ([c] + s)[1..] == s;
  }

  lemma {:induction false} SplitPiece(p: string, rest: string, sep: char)
    requires sep !in p
    ensures Split(p + [sep] + rest, sep) == [p] + Split(rest, sep)
    ensures Split(p, sep) == [p]
    decreases |p|
  {
    if p == [] {
      assert p + [sep] + rest == [sep] + rest;
      assert ([sep] + rest)[1..] == rest;
    } else {
      SplitPiece(p[1..], rest, sep);
      assert p + [sep] + rest == [p[0]] + (p[1..] + [sep] + rest);
      SplitCons(p[0], p[1..] + [sep] + rest, sep);
      assert p == [p[0]] + p[1..];
      SplitCons(p[0], p[1..], sep);
    }
  }

  /** Splitting the join of separator-free pieces gives the pieces back. */
  lemma {:induction false} SplitJoin(parts: seq<string>, sep: char)
    requires |parts| >= 1
    requires forall i :: 0 <= i < |parts| ==> sep !in parts[i]
    ensures Split(Join(parts, [sep]), sep) == parts
  {
    if |parts| == 1 {
      SplitPiece(parts[0], "", sep);
    } else {
      SplitJoin(parts[1..], sep);
      SplitPiece(parts[0], Join(parts[1..], [sep]), sep);
    }
  }

  lemma {:induction false} JoinSnoc(parts: seq<string>, x: string, sep: string)
    requires |parts| >= 1
    ensures Join(parts + [x], sep) == Join(parts, sep) + sep + x
  {
    if |parts| == 1 {
      assert (parts + [x])[1..] == [x];
    } else {
      assert (parts + [x])[1..] == parts[1..] + [x];
      JoinSnoc(parts[1..], x, sep);
    }
  }

  /** Length of the leading run of non-whitespace characters. */
  function WordLength(s: string): (n: nat)
    ensures n <= |s|
    ensures s != [] && !IsSpace(s[0]) ==> n >= 1
    ensures forall i :: 0 <= i < n ==> !IsSpace(s[i])
    ensures n < |s| ==> IsSpace(s[n])
  {
    if s == [] || IsSpace(s[0]) then 0 else 1 + WordLength(s[1..])
  }

  /** `s.split()`: the maximal runs of non-whitespace characters. */
  function Tokens(s: string): (words: seq<string>)
    ensures forall i :: 0 <= i < |words| ==> words[i] != []
    decreases |s|
  {
    if s == [] then []
    else if IsSpace(s[0]) then Tokens(s[1..])
    else
      var n := WordLength(s);
      [s[..n]] + Tokens(s[n..])
  }

  function LStrip(s: string): (r: string)
    ensures r == [] || !IsSpace(r[0])
    ensures |r| <= |s| && (r != [] ==> r[|r| - 1] == s[|s| - 1])
  {
    if s != [] && IsSpace(s[0]) then LStrip(s[1..]) else s
  }

  function RStrip(s: string): (r: string)
    ensures r == [] || !IsSpace(r[|r| - 1])
    ensures |r| <= |s| && (r != [] ==> r[0] == s[0])
  {
    if s != [] && IsSpace(s[|s| - 1]) then RStrip(s[..|s| - 1]) else s
  }

  /** `s.strip()`. */
  function Strip(s: string): (r: string)
    ensures r == [] || (!IsSpace(r[0]) && !IsSpace(r[|r| - 1]))
  {
    RStrip(LStrip(s))
  }

  /** The first word of a string that does not start with whitespace is its leading run. */
  lemma TokensHead(s: string)
    requires s != [] && !IsSpace(s[0])
    ensures Tokens(s) != [] && Tokens(s)[0] == s[..WordLength(s)]
  {
  }

  /** Leading whitespace does not change the words. */
  lemma {:induction false} TokensSpaces(sp: string, rest: string)
    requires forall i :: 0 <= i < |sp| ==> IsSpace(sp[i])
    ensures Tokens(sp + rest) == Tokens(rest)
    decreases |sp|
  {
    if sp != [] {
      assert (sp + rest)[1..] == sp[1..] + rest;
      TokensSpaces(sp[1..], rest);
    } else {
      assert sp + rest == rest;
    }
  }

  lemma {:induction false} WordLengthOf(w: string, rest: string)
    requires forall i :: 0 <= i < |w| ==> !IsSpace(w[i])
    requires rest == [] || IsSpace(rest[0])
    ensures WordLength(w + rest) == |w|
    decreases |w|
  {
    if w != [] {
      assert (w + rest)[1..] == w[1..] + rest;
      WordLengthOf(w[1..], rest);
    } else {
      assert w + rest == rest;
    }
  }

  /** A word followed by whitespace or the end is the first of the words. */
  lemma TokensWord(w: string, rest: string)
    requires w != [] && forall i :: 0 <= i < |w| ==> !IsSpace(w[i])
    requires rest == [] || IsSpace(rest[0])
    ensures Tokens(w + rest) == [w] + Tokens(rest)
  {
    WordLengthOf(w, rest);
    assert (w + rest)[..|w|] == w;
    assert (w + rest)[|w|..] == rest;
  }

  lemma {:induction false} LStripSpaces(sp: string, rest: string)
    requires forall i :: 0 <= i < |sp| ==> IsSpace(sp[i])
    ensures LStrip(sp + rest) == LStrip(rest)
    decreases |sp|
  {
    if sp != [] {
      assert (sp + rest)[1..] == sp[1..] + rest;
      LStripSpaces(sp[1..], rest);
    } else {
      assert sp + rest == rest;
    }
  }

  /** A string with no whitespace at either end is its own strip. */
  lemma StripNoop(s: string)
    requires s == [] || (!IsSpace(s[0]) && !IsSpace(s[|s| - 1]))
    ensures Strip(s) == s
  {
  }

  lemma {:induction false} RStripSpaces(w: string, sp: string)
    requires forall i :: 0 <= i < |sp| ==> IsSpace(sp[i])
    requires w == [] || !IsSpace(w[|w| - 1])
    ensures RStrip(w + sp) == w
    decreases |sp|
  {
    if sp == [] {
      assert w + sp == w;
    } else {
      assert (w + sp)[..|w + sp| - 1] == w + sp[..|sp| - 1];
      RStripSpaces(w, sp[..|sp| - 1]);
    }
  }

  /** Whitespace around a string with none at its ends is what `strip()` removes. */
  lemma StripPadded(sp1: string, s: string, sp2: string)
    requires forall i :: 0 <= i < |sp1| ==> IsSpace(sp1[i])
    requires forall i :: 0 <= i < |sp2| ==> IsSpace(sp2[i])
    requires s == [] || (!IsSpace(s[0]) && !IsSpace(s[|s| - 1]))
    ensures Strip(sp1 + s + sp2) == s
  {
    assert sp1 + s + sp2 == sp1 + (s + sp2);
    LStripSpaces(sp1, s + sp2);
    if s == [] {
      assert s + sp2 == sp2 + [];
      LStripSpaces(sp2, []);
    } else {
      assert (s + sp2)[0] == s[0];
    }
    RStripSpaces(s, sp2);
  }

  /** The words of two words with whitespace around and between them. */
  lemma TwoWords(sp1: string, w1: string, sp2: string, w2: string, sp3: string)
    requires forall i :: 0 <= i < |sp1| ==> IsSpace(sp1[i])
    requires sp2 != [] && forall i :: 0 <= i < |sp2| ==> IsSpace(sp2[i])
    requires forall i :: 0 <= i < |sp3| ==> IsSpace(sp3[i])
    requires w1 != [] && forall i :: 0 <= i < |w1| ==> !IsSpace(w1[i])
    requires w2 != [] && forall i :: 0 <= i < |w2| ==> !IsSpace(w2[i])
    ensures Tokens(Strip(sp1 + w1 + sp2 + w2 + sp3)) == [w1, w2]
  {
    var s := w1 + sp2 + w2;
    assert s[0] == w1[0] && s[|s| - 1] == w2[|w2| - 1];
    assert sp1 + w1 + sp2 + w2 + sp3 == sp1 + s + sp3;
    StripPadded(sp1, s, sp3);
    assert s == w1 + (sp2 + w2);
    TokensWord(w1, sp2 + w2);
    TokensSpaces(sp2, w2);
    assert w2 == w2 + [];
    TokensWord(w2, []);
  }

  /** A word followed by whitespace and more text is the first of the words, the words of
      the text following it. */
  lemma WordThenGap(w: string, sp: string, rest: string)
    requires w != [] && forall i :: 0 <= i < |w| ==> !IsSpace(w[i])
    requires sp != [] && forall i :: 0 <= i < |sp| ==> IsSpace(sp[i])
    ensures Tokens(w + (sp + rest)) == [w] + Tokens(rest)
  {
    assert (sp + rest)[0] == sp[0];
    TokensWord(w, sp + rest);
    TokensSpaces(sp, rest);
  }

  /** The words of four words separated by whitespace. */
  lemma FourWords(w1: string, sp1: string, w2: string, sp2: string, w3: string, sp3: string, w4: string)
    requires w1 != [] && forall i :: 0 <= i < |w1| ==> !IsSpace(w1[i])
    requires w2 != [] && forall i :: 0 <= i < |w2| ==> !IsSpace(w2[i])
    requires w3 != [] && forall i :: 0 <= i < |w3| ==> !IsSpace(w3[i])
    requires w4 != [] && forall i :: 0 <= i < |w4| ==> !IsSpace(w4[i])
    requires sp1 != [] && forall i :: 0 <= i < |sp1| ==> IsSpace(sp1[i])
    requires sp2 != [] && forall i :: 0 <= i < |sp2| ==> IsSpace(sp2[i])
    requires sp3 != [] && forall i :: 0 <= i < |sp3| ==> IsSpace(sp3[i])
    ensures Tokens(Strip(w1 + sp1 + w2 + sp2 + w3 + sp3 + w4)) == [w1, w2, w3, w4]
  {
    var line := w1 + sp1 + w2 + sp2 + w3 + sp3 + w4;
    assert line[0] == w1[0] && line[|line| - 1] == w4[|w4| - 1];
    StripNoop(line);
    assert line == w1 + (sp1 + (w2 + (sp2 + (w3 + (sp3 + w4)))));
    TokensOneWord(w4);
    WordThenGap(w3, sp3, w4);
    WordThenGap(w2, sp2, w3 + (sp3 + w4));
    WordThenGap(w1, sp1, w2 + (sp2 + (w3 + (sp3 + w4))));
  }

  /** Concatenation is associative; stated once so that proofs can cite it instead of
      rediscovering it. */
  lemma AppendAssoc<T>(a: seq<T>, b: seq<T>, c: seq<T>)
    ensures a + b + c == a + (b + c)
  {
  }

  /** A prefix of a prefix is a prefix. */
  lemma SlicePrefix<T>(s: seq<T>, n: nat, i: nat)
    requires i < n <= |s|
    ensures s[..n][i] == s[i] && s[..n][..i] == s[..i]
  {
  }

  /** Taking one element off the front of a suffix moves the split point by one. */
  lemma SliceStep<T>(s: seq<T>, j: nat)
    requires j < |s|
    ensures s[j..][0] == s[j] && s[j..][1..] == s[j + 1..]
    ensures s[..j] + [s[j]] == s[..j + 1]
  {
  }

  /** A word followed by whitespace strips to the word. */
  lemma StripWordSpaces(w: string, sp: string)
    requires w != [] && forall i :: 0 <= i < |w| ==> !IsSpace(w[i])
    requires forall i :: 0 <= i < |sp| ==> IsSpace(sp[i])
    ensures Strip(w + sp) == w
  {
    assert (w + sp)[0] == w[0];
    assert LStrip(w + sp) == w + sp;
    RStripSpaces(w, sp);
  }

  /** A single word is its only word. */
  lemma TokensOneWord(w: string)
    requires w != [] && forall i :: 0 <= i < |w| ==> !IsSpace(w[i])
    ensures Tokens(w) == [w]
  {
    assert w + [] == w;
    TokensWord(w, []);
  }

  lemma WordThenWords(w: string, sp: string, rest: string)
    requires w != [] && forall i :: 0 <= i < |w| ==> !IsSpace(w[i])
    requires sp != [] && forall i :: 0 <= i < |sp| ==> IsSpace(sp[i])
    requires rest != [] && !IsSpace(rest[0]) && !IsSpace(rest[|rest| - 1])
    ensures Strip(w + sp + rest) == w + sp + rest
    ensures Tokens(w + sp + rest)[0] == w
    ensures (w + sp + rest)[|w|..] == sp + rest
  {
    var line := w + sp + rest;
    assert line[0] == w[0] && line[|line| - 1] == rest[|rest| - 1];
    StripNoop(line);
    AppendAssoc(w, sp, rest);
    TokensWord(w, sp + rest);
  }

  /** A word, whitespace, and a stripped rest: `strip().split()[0]` is the word and the
      stripped remainder after it is the rest. */
  lemma WordThenRest(w: string, sp: string, rest: string)
    requires w != [] && forall i :: 0 <= i < |w| ==> !IsSpace(w[i])
    requires sp != [] && forall i :: 0 <= i < |sp| ==> IsSpace(sp[i])
    requires Strip(rest) == rest
    ensures Tokens(Strip(w + sp + rest)) != [] && Tokens(Strip(w + sp + rest))[0] == w
    ensures |w| <= |Strip(w + sp + rest)| && Strip(Strip(w + sp + rest)[|w|..]) == rest
  {
    if rest == [] {
      assert w + sp + rest == w + sp;
      StripWordSpaces(w, sp);
      TokensOneWord(w);
      assert w[|w|..] == [];
    } else {
      WordThenWords(w, sp, rest);
      assert sp + rest == sp + rest + [];
      StripPadded(sp, rest, []);
    }
  }

  lemma StripIdempotent(s: string)
    ensures Strip(Strip(s)) == Strip(s)
  {
    StripNoop(Strip(s));
  }

  /** Deleting characters keeps every other character. */
  lemma {:induction false} RemoveCharsKeeps(s: string, chars: set<char>, c: char)
    requires c !in chars
    ensures c in RemoveChars(s, chars) <==> c in s
  {
    if s != [] {
      RemoveCharsKeeps(s[1..], chars, c);
      assert s == [s[0]] + s[1..];
    }
  }

  /** Deleting a set of characters after deleting some of them is deleting them all at once. */
  lemma {:induction false} RemoveCharsTwice(s: string, a: set<char>, b: set<char>)
    requires a <= b
    ensures RemoveChars(RemoveChars(s, a), b) == RemoveChars(s, b)
  {
    if s != [] {
      RemoveCharsTwice(s[1..], a, b);
      if s[0] !in a {
        assert ([s[0]] + RemoveChars(s[1..], a))[1..] == RemoveChars(s[1..], a);
      }
    }
  }

  /** `s.startswith(prefix)`. */
  predicate StartsWith(s: string, prefix: string) {
    |prefix| <= |s| && s[..|prefix|] == prefix
  }

  /** `s.translate(None, chars)`: `s` with every character of `chars` deleted. */
  function RemoveChars(s: string, chars: set<char>): (r: string)
    ensures |r| <= |s|
    ensures forall i :: 0 <= i < |r| ==> r[i] !in chars
  {
    if s == [] then []
    else if s[0] in chars then RemoveChars(s[1..], chars)
    else [s[0]] + RemoveChars(s[1..], chars)
  }

  lemma {:induction false} RemoveCharsAppend(a: string, b: string, chars: set<char>)
    ensures RemoveChars(a + b, chars) == RemoveChars(a, chars) + RemoveChars(b, chars)
  {
    if a == [] {
      assert a + b == b;
    } else {
      assert (a + b)[1..] == a[1..] + b;
      RemoveCharsAppend(a[1..], b, chars);
    }
  }

  lemma {:induction false} RemoveCharsNone(s: string, chars: set<char>)
    requires forall i :: 0 <= i < |s| ==> s[i] !in chars
    ensures RemoveChars(s, chars) == s
  {
    if s != [] {
      RemoveCharsNone(s[1..], chars);
    }
  }

  /** `n` copies of `c`. */
  function Repeat(c: char, n: nat): (r: string)
    ensures |r| == n
    ensures forall i :: 0 <= i < n ==> r[i] == c
  {
    seq(n, _ => c)
  }

  /** `s.rjust(width)`: padded with spaces on the left up to `width`. */
  function PadLeft(s: string, width: nat): (r: string)
  {
    if |s| < width then Repeat(' ', width - |s|) + s else s
  }

  /** `s.ljust(width)`: padded with spaces on the right up to `width`. */
  function PadRight(s: string, width: nat): (r: string)
  {
    if |s| < width then s + Repeat(' ', width - |s|) else s
  }

  lemma PadLeftShape(s: string, width: nat)
    ensures |PadLeft(s, width)| == if |s| < width then width else |s|
    ensures PadLeft(s, width)[|PadLeft(s, width)| - |s|..] == s
    ensures forall i :: 0 <= i < |PadLeft(s, width)| - |s| ==> PadLeft(s, width)[i] == ' '
  {
  }

  lemma PadRightShape(s: string, width: nat)
    ensures |PadRight(s, width)| == if |s| < width then width else |s|
    ensures PadRight(s, width)[..|s|] == s
    ensures forall i :: |s| <= i < |PadRight(s, width)| ==> PadRight(s, width)[i] == ' '
  {
  }

  /** Python's `a < b` on strings: lexicographic by character code, a proper prefix first. */
  predicate Lt(a: string, b: string) {
    if b == [] then false
    else if a == [] then true
    else if a[0] != b[0] then a[0] < b[0]
    else Lt(a[1..], b[1..])
  }

  /** Python's `a <= b` on strings. */
  predicate Le(a: string, b: string) {
    a == b || Lt(a, b)
  }

  lemma {:induction false} LtIrreflexive(a: string)
    ensures !Lt(a, a)
  {
    if a != [] {
      LtIrreflexive(a[1..]);
    }
  }

  lemma {:induction false} LtTransitive(a: string, b: string, c: string)
    requires Lt(a, b) && Lt(b, c)
    ensures Lt(a, c)
  {
    if a != [] && b != [] && c != [] && a[0] == b[0] && b[0] == c[0] {
      LtTransitive(a[1..], b[1..], c[1..]);
    }
  }

  /** Exactly one of `a < b`, `a == b`, `b < a` holds. */
  lemma {:induction false} LtTrichotomy(a: string, b: string)
    ensures Lt(a, b) || a == b || Lt(b, a)
    ensures !(Lt(a, b) && Lt(b, a))
  {
    if a != [] && b != [] && a[0] == b[0] {
      LtTrichotomy(a[1..], b[1..]);
      if a[1..] == b[1..] {
        assert a == [a[0]] + a[1..] && b == [b[0]] + b[1..];
      }
    }
  }

  lemma LeTotal(a: string, b: string)
    ensures Le(a, b) || Le(b, a)
  {
    LtTrichotomy(a, b);
  }

  lemma LeTransitive(a: string, b: string, c: string)
    requires Le(a, b) && Le(b, c)
    ensures Le(a, c)
  {
    if Lt(a, b) && Lt(b, c) {
      LtTransitive(a, b, c);
    }
  }

  lemma LeAntisymmetric(a: string, b: string)
    requires Le(a, b) && Le(b, a)
    ensures a == b
  {
    LtTrichotomy(a, b);
  }

  /** `not Le(a, b)` is `b < a`. */
  lemma NotLe(a: string, b: string)
    ensures !Le(a, b) <==> Lt(b, a)
  {
    LtTrichotomy(a, b);
  }
}
