/** The e-mail pattern shared by the User and Inquiry schemas,
      ^\w+([.-]?\w+)*@\w+([.-]?\w+)*(\.\w{2,3})+$
    where `\w` is [A-Za-z0-9_]. `MatchesPattern` reads the pattern
    literally, one ghost predicate per sub-expression; `IsEmail` is a
    single left-to-right scan; `PatternIff` proves they agree. */
module Email {
  import opened Common

  predicate IsWordChar(c: char) {
    ('a' <= c <= 'z') || ('A' <= c <= 'Z') || ('0' <= c <= '9') || c == '_'
  }

  predicate IsSep(c: char) { c == '.' || c == '-' }

  predicate AllWord(s: string) {
    forall i :: 0 <= i < |s| ==> IsWordChar(s[i])
  }

  // ---------------------------------------------------------------
  // The pattern, sub-expression by sub-expression

  /** \w+ */
  ghost predicate Word(s: string) { |s| > 0 && AllWord(s) }

  /** [.-]?\w+ */
  ghost predicate Piece(s: string) {
    Word(s) || (|s| >= 1 && IsSep(s[0]) && Word(s[1..]))
  }

  /** ([.-]?\w+)* */
  ghost predicate Pieces(s: string)
    decreases |s|
  {
    s == [] || exists k :: 0 < k <= |s| && Piece(s[..k]) && Pieces(s[k..])
  }

  /** \w+([.-]?\w+)* */
  ghost predicate Name(s: string) {
    exists k :: 0 < k <= |s| && Word(s[..k]) && Pieces(s[k..])
  }

  /** \.\w{2,3} */
  ghost predicate Suffix(s: string) {
    (|s| == 3 || |s| == 4) && s[0] == '.' && AllWord(s[1..])
  }

  /** (\.\w{2,3})+ */
  ghost predicate Suffixes(s: string)
    decreases |s|
  {
    exists k :: 0 < k <= |s| && Suffix(s[..k]) && (k == |s| || Suffixes(s[k..]))
  }

  /** \w+([.-]?\w+)*(\.\w{2,3})+ */
  ghost predicate Host(s: string) {
    exists k :: 0 < k < |s| && Name(s[..k]) && Suffixes(s[k..])
  }

  /** The whole anchored pattern: a name, `@`, and a host, so at least
      six characters. */
  ghost function MatchesPattern(s: string): (r: bool)
    ensures r ==> '@' in s && 6 <= |s|
  {
    exists a :: 0 <= a < |s| && s[a] == '@' && Name(s[..a]) && Host(s[a + 1..])
  }

  // ---------------------------------------------------------------
  // The recognizer

  /** What may follow a word character inside a name: further word
      characters, or one separator that is followed by a word character. */
  predicate NameTail(s: string)
    decreases |s|
  {
    if s == [] then true
    else if IsWordChar(s[0]) then NameTail(s[1..])
    else IsSep(s[0]) && |s| >= 2 && IsWordChar(s[1]) && NameTail(s[2..])
  }

  predicate IsName(s: string) {
    |s| > 0 && IsWordChar(s[0]) && NameTail(s[1..])
  }

  /** The length of the run of word characters that ends `s`. */
  function TrailingWord(s: string): (n: nat)
    ensures n <= |s|
    ensures forall i :: |s| - n <= i < |s| ==> IsWordChar(s[i])
    ensures n < |s| ==> !IsWordChar(s[|s| - n - 1])
  {
    if s != [] && IsWordChar(s[|s| - 1]) then TrailingWord(s[..|s| - 1]) + 1 else 0
  }

  /** A name whose last separator is a dot followed by two or three word
      characters. */
  predicate IsHost(s: string) {
    IsName(s) && EndsWithTld(s)
  }

  predicate EndsWithTld(s: string) {
    var n := TrailingWord(s);
    (n == 2 || n == 3) && n < |s| && s[|s| - n - 1] == '.'
  }

  function IndexOf(s: string, c: char): (r: Option<nat>)
    ensures r.Some? ==> r.value < |s| && s[r.value] == c && c !in s[..r.value]
    ensures r.None? ==> c !in s
  {
    if s == [] then None
    else if s[0] == c then Some(0)
    else match IndexOf(s[1..], c)
      case None => None
      case Some(i) =>
        assert s[..i + 1] == [s[0]] + s[1..][..i];
        Some(i + 1)
  }

  /** An accepted address has exactly one `@`, allows nothing but word
      characters, dots, hyphens and that `@`, starts and ends with a word
      character and is at least six characters long (`a@b.cd`). */
  function IsEmail(s: string): (r: bool)
    ensures r ==> exists a :: 0 <= a < |s| && s[a] == '@' && '@' !in s[..a] && '@' !in s[a + 1..]
    ensures r ==> forall i :: 0 <= i < |s| ==> IsWordChar(s[i]) || IsSep(s[i]) || s[i] == '@'
    ensures r ==> 6 <= |s| && IsWordChar(s[0]) && IsWordChar(s[|s| - 1])
  {
    var at := IndexOf(s, '@');
    if at.Some? && IsName(s[..at.value]) && IsHost(s[at.value + 1..]) then
      AddressShape(s, at.value);
      true
    else false
  }

  /** The shape of a name and a host joined by `@`. */
  lemma AddressShape(s: string, a: nat)
    requires a < |s| && s[a] == '@' && IsName(s[..a]) && IsHost(s[a + 1..])
    ensures '@' !in s[..a] && '@' !in s[a + 1..]
    ensures forall i :: 0 <= i < |s| ==> IsWordChar(s[i]) || IsSep(s[i]) || s[i] == '@'
    ensures 6 <= |s| && IsWordChar(s[0]) && IsWordChar(s[|s| - 1])
  {
    var name, host := s[..a], s[a + 1..];
    NameChars(name);
    NameChars(host);
    var n := TrailingWord(host);
    assert host[|host| - n - 1] == '.';
    assert |host| - n - 1 != 0;
    forall i | 0 <= i < |s| ensures IsWordChar(s[i]) || IsSep(s[i]) || s[i] == '@' {
      if i < a { assert s[i] == name[i]; }
      else if i > a { assert s[i] == host[i - a - 1]; }
    }
    assert s[|s| - 1] == host[|host| - 1];
  }

  /** A name holds only word characters and separators. */
  lemma NameChars(s: string)
    requires IsName(s)
    ensures forall i :: 0 <= i < |s| ==> IsWordChar(s[i]) || IsSep(s[i])
    ensures '@' !in s
  {
    NameTailChars(s[1..]);
    forall i | 1 <= i < |s| ensures IsWordChar(s[i]) || IsSep(s[i]) {
      assert s[i] == s[1..][i - 1];
    }
  }

  // ---------------------------------------------------------------
  // The recognizer accepts exactly the strings the pattern matches

  lemma {:induction false} NameTailChars(s: string)
    requires NameTail(s)
    ensures forall i :: 0 <= i < |s| ==> IsWordChar(s[i]) || IsSep(s[i])
    decreases |s|
  {
    if s != [] {
      if IsWordChar(s[0]) {
        NameTailChars(s[1..]);
        forall i | 1 <= i < |s| ensures IsWordChar(s[i]) || IsSep(s[i]) { assert s[i] == s[1..][i - 1]; }
      } else {
        NameTailChars(s[2..]);
        forall i | 2 <= i < |s| ensures IsWordChar(s[i]) || IsSep(s[i]) { assert s[i] == s[2..][i - 2]; }
      }
    }
  }

  lemma {:induction false} NameTailAppend(a: string, b: string)
    requires NameTail(a) && NameTail(b)
    ensures NameTail(a + b)
    decreases |a|
  {
    if a == [] {
      assert a + b == b;
    } else if IsWordChar(a[0]) {
      DropOfConcat(a, b, 1);
      NameTailAppend(a[1..], b);
    } else {
      DropOfConcat(a, b, 2);
      NameTailAppend(a[2..], b);
    }
  }

  lemma DropOfConcat(a: string, b: string, n: nat)
    requires n <= |a|
    ensures (a + b)[n..] == a[n..] + b
    ensures forall i :: 0 <= i < n ==> (a + b)[i] == a[i]
  {
  }

  lemma {:induction false} WordsAreNameTail(w: string)
    requires AllWord(w)
    ensures NameTail(w)
    decreases |w|
  {
    if w != [] {
      WordsAreNameTail(w[1..]);
    }
  }

  lemma {:induction false} PiecesToNameTail(s: string)
    requires Pieces(s)
    ensures NameTail(s)
    decreases |s|
  {
    if s != [] {
      var k :| 0 < k <= |s| && Piece(s[..k]) && Pieces(s[k..]);
      PiecesToNameTail(s[k..]);
      var p := s[..k];
      assert s == p + s[k..];
      if Word(p) {
        WordsAreNameTail(p);
      } else {
        WordsAreNameTail(p[2..]);
        assert AllWord(p[1..]) && p[1] == p[1..][0];
        assert NameTail(p);
      }
      NameTailAppend(p, s[k..]);
    }
  }

  lemma {:induction false} NameTailToPieces(s: string)
    requires NameTail(s)
    ensures Pieces(s)
    decreases |s|
  {
    if s != [] {
      var k := if IsWordChar(s[0]) then 1 else 2;
      NameTailToPieces(s[k..]);
      assert Piece(s[..k]) by {
        if k == 2 { assert s[..k][1..] == [s[1]]; }
      }
    }
  }

  lemma NameToIsName(s: string)
    requires Name(s)
    ensures IsName(s)
  {
    var k :| 0 < k <= |s| && Word(s[..k]) && Pieces(s[k..]);
    var w, rest := s[..k], s[k..];
    PiecesToNameTail(rest);
    AllWordDrop(w);
    WordsAreNameTail(w[1..]);
    NameTailAppend(w[1..], rest);
    DropOfConcat(w, rest, 1);
    assert w + rest == s;
  }

  lemma AllWordDrop(w: string)
    requires Word(w)
    ensures IsWordChar(w[0]) && AllWord(w[1..])
  {
    forall i | 0 <= i < |w| - 1 ensures IsWordChar(w[1..][i]) {
      assert w[1..][i] == w[i + 1];
    }
  }

  lemma IsNameToName(s: string)
    requires IsName(s)
    ensures Name(s)
  {
    NameTailToPieces(s[1..]);
    assert Word(s[..1]);
  }

  lemma NameIff(s: string)
    ensures Name(s) <==> IsName(s)
  {
    if Name(s) { NameToIsName(s); }
    if IsName(s) { IsNameToName(s); }
  }

  /** Cutting a name tail just before one of its separators leaves a name tail. */
  lemma {:induction false} NameTailBeforeSep(t: string, j: nat)
    requires NameTail(t) && j < |t| && IsSep(t[j])
    ensures NameTail(t[..j])
    decreases |t|
  {
    if j > 0 {
      if IsWordChar(t[0]) {
        NameTailBeforeSep(t[1..], j - 1);
        assert t[..j][1..] == t[1..][..j - 1];
      } else {
        assert j >= 2;
        NameTailBeforeSep(t[2..], j - 2);
        assert t[..j][2..] == t[2..][..j - 2];
      }
    }
  }

  lemma {:induction false} TrailingWordAppend(a: string, b: string)
    requires TrailingWord(b) < |b|
    ensures TrailingWord(a + b) == TrailingWord(b)
    decreases |b|
  {
    var n := TrailingWord(b);
    if n > 0 {
      TrailingWordAppend(a, b[..|b| - 1]);
      assert (a + b)[..|a + b| - 1] == a + b[..|b| - 1];
    }
  }

  lemma {:induction false} SuffixesToNameTail(s: string)
    requires Suffixes(s)
    ensures NameTail(s)
    decreases |s|
  {
    var k :| 0 < k <= |s| && Suffix(s[..k]) && (k == |s| || Suffixes(s[k..]));
    var p := s[..k];
    WordsAreNameTail(p[2..]);
    assert p[1] == p[1..][0];
    assert NameTail(p);
    if k == |s| {
      assert s == p;
    } else {
      SuffixesToNameTail(s[k..]);
      NameTailAppend(p, s[k..]);
      assert s == p + s[k..];
    }
  }

  /** Pattern-matched suffixes end with a dot and two or three word characters. */
  lemma {:induction false} SuffixesEnd(s: string)
    requires Suffixes(s)
    ensures EndsWithTld(s)
    decreases |s|
  {
    var k :| 0 < k <= |s| && Suffix(s[..k]) && (k == |s| || Suffixes(s[k..]));
    SplitAt(s, k);
    if k == |s| {
      SuffixWord(s[..k]);
    } else {
      SuffixesEnd(s[k..]);
      EndsWithTldAppend(s[..k], s[k..]);
    }
  }

  lemma SplitAt(s: string, k: nat)
    requires k <= |s|
    ensures s[..k] + s[k..] == s
    ensures k == |s| ==> s[..k] == s
  {
  }

  lemma EndsWithTldAppend(a: string, b: string)
    requires EndsWithTld(b)
    ensures EndsWithTld(a + b)
  {
    TrailingWordAppend(a, b);
    var n := TrailingWord(b);
    assert (a + b)[|a + b| - n - 1] == b[|b| - n - 1];
  }

  lemma SuffixWord(s: string)
    requires Suffix(s)
    ensures TrailingWord(s) == |s| - 1
    ensures EndsWithTld(s)
  {
  }

  lemma HostToIsHost(s: string)
    requires Host(s)
    ensures IsHost(s)
  {
    var k :| 0 < k < |s| && Name(s[..k]) && Suffixes(s[k..]);
    var a, b := s[..k], s[k..];
    assert s == a + b;
    NameToIsName(a);
    SuffixesToNameTail(b);
    NameThenTail(a, b);
    SuffixesEnd(b);
    EndsWithTldAppend(a, b);
  }

  lemma NameThenTail(a: string, b: string)
    requires IsName(a) && NameTail(b)
    ensures IsName(a + b)
  {
    TailOfConcat(a, b);
    FirstOfConcat(a, b);
  }

  lemma TailOfConcat(a: string, b: string)
    requires IsName(a) && NameTail(b)
    ensures NameTail((a + b)[1..])
  {
    NameTailAppend(a[1..], b);
    DropOfConcat(a, b, 1);
  }

  lemma FirstOfConcat(a: string, b: string)
    requires |a| > 0 && IsWordChar(a[0])
    ensures IsWordChar((a + b)[0])
  {
  }

  lemma IsHostToHost(s: string)
    requires IsHost(s)
    ensures Host(s)
  {
    var n := TrailingWord(s);
    var j := |s| - n - 1;
    assert j > 0;
    NameTailBeforeSep(s[1..], j - 1);
    assert s[..j][1..] == s[1..][..j - 1];
    assert IsName(s[..j]);
    IsNameToName(s[..j]);
    var t := s[j..];
    assert Suffix(t) by {
      forall i | 0 <= i < |t| - 1 ensures IsWordChar(t[1..][i]) {
        assert t[1..][i] == s[j + 1 + i];
      }
    }
    assert t[..|t|] == t;
    assert Suffixes(t);
  }

  lemma HostIff(s: string)
    ensures Host(s) <==> IsHost(s)
  {
    if Host(s) { HostToIsHost(s); }
    if IsHost(s) { IsHostToHost(s); }
  }

  lemma MatchesPatternToIsEmail(s: string)
    requires MatchesPattern(s)
    ensures IsEmail(s)
  {
    var a :| 0 <= a < |s| && s[a] == '@' && Name(s[..a]) && Host(s[a + 1..]);
    NameToIsName(s[..a]);
    NoAtInName(s[..a]);
    IndexOfFirst(s, '@', a);
    HostToIsHost(s[a + 1..]);
  }

  /** A name holds word characters and separators only. */
  lemma NoAtInName(t: string)
    requires IsName(t)
    ensures '@' !in t
  {
    NameTailChars(t[1..]);
    forall i | 0 <= i < |t| ensures t[i] != '@' {
      if i > 0 { assert t[i] == t[1..][i - 1]; }
    }
  }

  lemma IndexOfFirst(s: string, c: char, a: nat)
    requires a < |s| && s[a] == c && c !in s[..a]
    ensures IndexOf(s, c) == Some(a)
  {
    var r := IndexOf(s, c);
    assert s[a] in s;
    assert r.Some? ==> r.value >= a;
  }

  lemma IsEmailToMatchesPattern(s: string)
    requires IsEmail(s)
    ensures MatchesPattern(s)
  {
    var a := IndexOf(s, '@').value;
    IsNameToName(s[..a]);
    IsHostToHost(s[a + 1..]);
  }

  lemma PatternIff(s: string)
    ensures MatchesPattern(s) <==> IsEmail(s)
  {
    if MatchesPattern(s) { MatchesPatternToIsEmail(s); }
    if IsEmail(s) { IsEmailToMatchesPattern(s); }
  }

  /** Every address the pattern accepts contains an `@`, so is not empty. */
  lemma PatternNonEmpty(s: string)
    requires MatchesPattern(s)
    ensures s != ""
  {
  }
}
