/** soap_tag_cmp of nPVR/stdsoap2.cpp: a name, up to a quote, against a pattern in which '*' stands for any run of
    characters and '-' for any one, upper and lower case being alike. */
module TagPatterns {
  function Lower(c: char): char {
    if 'A' <= c <= 'Z' then c - 'A' + 'a' else c
  }

  predicate Alike(c: char, d: char) {
    Lower(c) == Lower(d)
  }

  /** The same char, or one letter of the alphabet as a capital and a small one, which are 32 apart */
  predicate SameLetter(c: char, d: char) {
    || c == d
    || (65 <= c as int <= 90 && d as int == c as int + 32)
    || (65 <= d as int <= 90 && c as int == d as int + 32)
  }

  lemma AlikeIff(c: char, d: char)
    ensures Alike(c, d) <==> SameLetter(c, d)
  {
  }

  /** What the pattern is for */
  predicate Matches(s: string, t: string)
    decreases |s| + |t|
  {
    if t == [] then s == []
    else if t[0] == '*' then Matches(s, t[1..]) || (s != [] && Matches(s[1..], t))
    else s != [] && (t[0] == '-' || SameLetter(s[0], t[0])) && Matches(s[1..], t[1..])
  }

  /** The name that the subject stands for */
  function Name(s: string): string {
    if s == [] || s[0] == '"' then [] else [s[0]] + Name(s[1..])
  }

  /** What the program decides about a name: a star in the name is taken for that of the pattern, and what follows
      a star of the pattern is looked for letter by letter. */
  predicate Accepts(s: string, t: string)
    decreases |s| + |t|
  {
    if s == [] then t == [] || t == "*"
    else if t == [] then false
    else if t[0] == '-' || Alike(s[0], t[0]) then Accepts(s[1..], t[1..])
    else t[0] == '*' && (|t| == 1 || t[1..] == "*" || Finds(s, t[1..]))
  }

  /** After a star the rest of the pattern is tried wherever its first character is found. */
  predicate Finds(s: string, u: string)
    requires u != []
    decreases |s| + |u|
  {
    s != [] && ((Alike(s[0], u[0]) && Accepts(s[1..], u[1..])) || Finds(s[1..], u))
  }

  /** No star is followed by a star or a dash. */
  predicate Plain(t: string) {
    forall i :: 0 <= i < |t| - 1 && t[i] == '*' ==> t[i + 1] != '*' && t[i + 1] != '-'
  }

  /** The name has no star, except perhaps at its end. */
  predicate StarFree(s: string) {
    forall i :: 0 <= i < |s| - 1 ==> s[i] != '*'
  }

  lemma PlainTail(t: string)
    requires Plain(t) && t != []
    ensures Plain(t[1..])
  {
  }

  lemma StarFreeTail(s: string)
    requires StarFree(s) && s != []
    ensures StarFree(s[1..])
  {
  }

  lemma {:induction false} NothingMatches(t: string)
    requires Plain(t)
    ensures Matches("", t) <==> t == [] || t == "*"
  {
    if t != [] && t[0] == '*' && |t| > 1 {
      assert t[1] != '*' && t[1..][0] == t[1];
    }
  }

  lemma {:induction false} FindsIff(s: string, u: string)
    requires StarFree(s) && u != [] && u[0] != '*' && u[0] != '-' && Plain(u)
    ensures Finds(s, u) <==> Matches(s, "*" + u)
    decreases |s| + |u|
  {
    var t := "*" + u;
    assert t[1..] == u && t[0] == '*';
    if s != [] {
      StarFreeTail(s);
      PlainTail(u);
      AlikeIff(s[0], u[0]);
      FindsIff(s[1..], u);
      AcceptsIff(s[1..], u[1..]);
    }
  }

  /** For plain patterns and names without inner stars the program is right. */
  lemma {:induction false} AcceptsIff(s: string, t: string)
    requires StarFree(s) && Plain(t)
    ensures Accepts(s, t) <==> Matches(s, t)
    decreases |s| + |t|
  {
    if s == [] {
      NothingMatches(t);
    } else if t != [] {
      AlikeIff(s[0], t[0]);
      StarFreeTail(s);
      PlainTail(t);
      if t[0] == '*' && |t| == 1 {
        assert t == "*" && t[1..] == "";
        AnyMatches(s);
        if Alike(s[0], '*') {
          assert s[0] == '*' && s[1..] == "";
          assert Accepts(s[1..], t[1..]);
        }
      } else if t[0] == '*' {
        assert t[1] != '*' && t[1] != '-';
        assert "*" + t[1..] == t;
        FindsIff(s, t[1..]);
        if Alike(s[0], '*') {
          AloneDoesNotMatch(s, t);
        }
      } else {
        AcceptsIff(s[1..], t[1..]);
      }
    }
  }

  lemma {:induction false} AnyMatches(s: string)
    ensures Matches(s, "*")
  {
    if s != [] {
      AnyMatches(s[1..]);
    }
  }

  /** A star as the whole name is matched by a star, and by no longer pattern that starts with one. */
  lemma AloneDoesNotMatch(s: string, t: string)
    requires s != [] && Alike(s[0], '*') && StarFree(s) && Plain(t) && |t| > 1 && t[0] == '*'
    requires t[1] != '*' && t[1] != '-'
    ensures !Matches(s, t) && !Accepts(s[1..], t[1..])
  {
    assert s[0] == '*' && |s| == 1;
    assert t[1..][0] == t[1];
    AlikeIff(s[0], t[1]);
    assert !Alike(s[0], t[1]);
    PlainTail(t);
    NothingMatches(t[1..]);
    NothingMatches(t);
  }

  /** The shortest name that a pattern is for */
  function Shortest(t: string): string {
    if t == [] then []
    else if t[0] == '*' then Shortest(t[1..])
    else [if t[0] == '-' then 'x' else t[0]] + Shortest(t[1..])
  }

  lemma {:induction false} ShortestMatches(t: string)
    ensures Matches(Shortest(t), t)
    ensures '*' !in Shortest(t) && '-' !in Shortest(t) && ('"' !in t ==> '"' !in Shortest(t))
  {
    if t != [] {
      ShortestMatches(t[1..]);
    }
  }

  lemma {:induction false} AcceptedIsLong(s: string, t: string)
    ensures Accepts(s, t) ==> |Shortest(t)| <= |s|
    decreases |s| + |t|
  {
    if s != [] && t != [] {
      AcceptedIsLong(s[1..], t[1..]);
      if |t| > 1 && t[0] == '*' {
        FoundIsLong(s, t[1..]);
      }
    }
  }

  lemma {:induction false} FoundIsLong(s: string, u: string)
    requires u != []
    ensures Finds(s, u) ==> |Shortest(u)| <= |s|
    decreases |s| + |u|
  {
    if s != [] {
      AcceptedIsLong(s[1..], u[1..]);
      FoundIsLong(s[1..], u);
    }
  }

  lemma {:induction false} NotThere(s: string, u: string)
    requires u != [] && u[0] !in s && (u[0] == '*' || u[0] == '-')
    ensures !Finds(s, u)
  {
    if s != [] {
      assert s[0] != u[0];
      NotThere(s[1..], u);
    }
  }

  /** With a star before a star or a dash the program refuses the shortest name. */
  lemma {:induction false} ShortestIsRefused(t: string)
    requires !Plain(t)
    ensures !Accepts(Shortest(t), t)
  {
    var s := Shortest(t);
    ShortestMatches(t);
    if t[0] != '*' {
      TailIsNotPlain(t);
      ShortestIsRefused(t[1..]);
    } else if t[1] == '*' || t[1] == '-' {
      NotThere(s, t[1..]);
      if t[1..] == "*" {
        assert Shortest(t[1..]) == Shortest(t[2..]) == "";
      }
      assert s != [] ==> s[0] in s;
    } else {
      TailIsNotPlain(t);
      TailIsNotPlain(t[1..]);
      ShortestIsRefused(t[2..]);
      assert t[1..][1..] == t[2..];
      FoundIsLong(s[1..], t[1..]);
    }
  }

  lemma TailIsNotPlain(t: string)
    requires !Plain(t) && (t[0] == '*' ==> t[1] != '*' && t[1] != '-')
    ensures !Plain(t[1..])
  {
    var i :| 0 <= i < |t| - 1 && t[i] == '*' && (t[i + 1] == '*' || t[i + 1] == '-');
    assert t[1..][i - 1] == '*' && t[1..][i] == t[i + 1];
  }

  /** The patterns that the program gets right for every such name are the plain ones. */
  lemma PatternIff(t: string)
    requires '"' !in t
    ensures Plain(t) <==> forall s :: StarFree(s) && '"' !in s ==> (Accepts(s, t) <==> Matches(s, t))
  {
    if Plain(t) {
      forall s | StarFree(s) && '"' !in s
        ensures Accepts(s, t) <==> Matches(s, t)
      {
        AcceptsIff(s, t);
      }
    } else {
      ShortestMatches(t);
      ShortestIsRefused(t);
      assert StarFree(Shortest(t));
    }
  }

  function Dashes(n: nat): string {
    if n == 0 then "*" else "-" + Dashes(n - 1)
  }

  lemma {:induction false} DashesDiffer(s: string, j: nat)
    requires j < |s| - 1 && s[j] == '*'
    ensures Plain(Dashes(j)) && Matches(s, Dashes(j)) && !Accepts(s, Dashes(j))
  {
    if j == 0 {
      AnyMatches(s);
      assert Dashes(0)[1..] == "";
    } else {
      DashesDiffer(s[1..], j - 1);
      var t := Dashes(j);
      assert t[1..] == Dashes(j - 1);
      forall i | 0 <= i < |t| - 1 && t[i] == '*'
        ensures t[i + 1] != '*' && t[i + 1] != '-'
      {
        assert t[1..][i - 1] == '*';
      }
    }
  }

  /** The names that the program gets right for every plain pattern are those without inner stars. */
  lemma NameIff(s: string)
    ensures StarFree(s) <==> forall t :: Plain(t) ==> (Accepts(s, t) <==> Matches(s, t))
  {
    if StarFree(s) {
      forall t | Plain(t)
        ensures Accepts(s, t) <==> Matches(s, t)
      {
        AcceptsIff(s, t);
      }
    } else {
      var j :| 0 <= j < |s| - 1 && s[j] == '*';
      DashesDiffer(s, j);
    }
  }
}

/** The function itself, on strings that end in a zero byte */
module TagComparing {
  import opened TagPatterns

  const NUL: char := '\0'

  function At(s: string, i: nat): char {
    if i < |s| then s[i] else NUL
  }

  predicate CString(s: string) {
    NUL !in s
  }

  predicate Ends(c: char) {
    c == NUL || c == '"'
  }

  lemma Unroll(s: string, i: nat)
    requires CString(s) && i <= |s|
    ensures Ends(At(s, i)) <==> Name(s[i..]) == ""
    ensures !Ends(At(s, i)) ==> i < |s| && Name(s[i..]) == [s[i]] + Name(s[i + 1..])
  {
    if i < |s| {
      assert s[i..][0] == s[i] && s[i..][1..] == s[i + 1..];
    }
  }

  /** The search after a star: true when the rest of the pattern fits somewhere */
  method Search(s: string, t: string, i0: nat, j: nat) returns (found: bool)
    requires CString(s) && CString(t) && i0 <= |s| && j < |t|
    ensures found <==> Finds(Name(s[i0..]), t[j..])
    decreases |s| - i0, |t| - j, 0
  {
    var c2 := Lower(t[j]);
    var i := i0;
    while true
      invariant i0 <= i <= |s|
      invariant Finds(Name(s[i0..]), t[j..]) <==> Finds(Name(s[i..]), t[j..])
      decreases |s| - i
    {
      Unroll(s, i);
      var c1 := At(s, i);
      if Ends(c1) {
        return false;
      }
      assert t[j..][1..] == t[j + 1..];
      if Lower(c1) == c2 {
        var r := TagCmp(s, t, i + 1, j + 1);
        if r == 0 {
          return true;
        }
      }
      i := i + 1;
    }
  }

  /** soap_tag_cmp(s + i0, t + j0) */
  method TagCmp(s: string, t: string, i0: nat, j0: nat) returns (r: int)
    requires CString(s) && CString(t) && i0 <= |s| && j0 <= |t|
    ensures r == 0 <==> Accepts(Name(s[i0..]), t[j0..])
    decreases |s| - i0, |t| - j0, 1
  {
    var i, j := i0, j0;
    while true
      invariant i0 <= i <= |s| && j0 <= j <= |t|
      invariant Accepts(Name(s[i0..]), t[j0..]) <==> Accepts(Name(s[i..]), t[j..])
      decreases |s| - i
    {
      Unroll(s, i);
      var c1, c2 := At(s, i), At(t, j);
      if Ends(c1) {
        break;
      }
      assert j < |t| ==> t[j..][0] == t[j] && t[j..][1..] == t[j + 1..];
      if c2 != '-' && Lower(c1) != Lower(c2) {
        if c2 != '*' {
          return 1;
        }
        j := j + 1;
        c2 := At(t, j);
        if c2 == NUL {
          return 0;
        }
        var found := Search(s, t, i, j);
        if found || (c2 == '*' && At(t, j + 1) == NUL) {
          return 0;
        }
        return c2 as int;
      }
      i := i + 1;
      j := j + 1;
    }
    if At(t, j) == '*' && At(t, j + 1) == NUL {
      return 0;
    }
    return At(t, j) as int;
  }

  /** What the callers rely on, for all plain patterns and names without inner stars */
  method Compare(s: string, t: string) returns (r: int)
    requires CString(s) && CString(t) && Plain(t) && StarFree(Name(s))
    ensures r == 0 <==> Matches(Name(s), t)
  {
    assert s[0..] == s && t[0..] == t;
    AcceptsIff(Name(s), t);
    r := TagCmp(s, t, 0, 0);
  }
}
