/** String helpers shared by the path, version and launch models. */
module Text {
  import opened Wrappers

  /** The index of the last occurrence of `c` in `s`, if any. */
  function LastIndexOf(s: string, c: char): (r: Option<nat>)
    ensures r.None? <==> c !in s
    ensures r.Some? ==> r.value < |s| && s[r.value] == c
    ensures r.Some? ==> forall j :: r.value < j < |s| ==> s[j] != c
  {
    if s == [] then None
    else if s[|s| - 1] == c then Some(|s| - 1)
    else LastIndexOf(s[..|s| - 1], c)
  }

  /** The characters String.prototype.trim removes that occur in tool output. */
  predicate IsBlank(c: char) {
    c == ' ' || c == '\t' || c == '\n' || c == '\r'
  }

  predicate AllBlank(s: string) {
    forall i :: 0 <= i < |s| ==> IsBlank(s[i])
  }

  /** `s` neither starts nor ends with a blank. */
  predicate Trimmed(s: string) {
    s == [] || (!IsBlank(s[0]) && !IsBlank(s[|s| - 1]))
  }

  function TrimStart(s: string): (r: string)
    ensures r == [] || !IsBlank(r[0])
    ensures |r| <= |s| && r == s[|s| - |r|..]
  {
    if s != [] && IsBlank(s[0]) then TrimStart(s[1..]) else s
  }

  /** What TrimStart removes is blank. */
  lemma {:induction false} TrimStartDropsBlanks(s: string)
    ensures AllBlank(s[..|s| - |TrimStart(s)|])
  {
    if s != [] && IsBlank(s[0]) {
      TrimStartDropsBlanks(s[1..]);
      assert s[1..][..|s| - 1 - |TrimStart(s)|] == s[1..|s| - |TrimStart(s)|];
    }
  }

  function TrimEnd(s: string): (r: string)
    ensures r == [] || !IsBlank(r[|r| - 1])
    ensures |r| <= |s| && r == s[..|r|]
  {
    if s != [] && IsBlank(s[|s| - 1]) then TrimEnd(s[..|s| - 1]) else s
  }

  /** What TrimEnd removes is blank. */
  lemma {:induction false} TrimEndDropsBlanks(s: string)
    ensures AllBlank(s[|TrimEnd(s)|..])
  {
    if s != [] && IsBlank(s[|s| - 1]) {
      var s' := s[..|s| - 1];
      TrimEndDropsBlanks(s');
      assert s[|TrimEnd(s)|..] == s'[|TrimEnd(s')|..] + [s[|s| - 1]];
    }
  }

  /** Both ends stripped of blanks, as String.prototype.trim does for these characters. */
  function Trim(s: string): (r: string)
    ensures Trimmed(r)
  {
    TrimEnd(TrimStart(s))
  }

  lemma TrimOfTrimmed(s: string)
    requires Trimmed(s)
    ensures Trim(s) == s
  {
  }

  lemma {:induction false} TrimStartSkipsBlanks(w: string, s: string)
    requires AllBlank(w)
    ensures TrimStart(w + s) == TrimStart(s)
  {
    if w != [] {
      assert (w + s)[1..] == w[1..] + s;
      TrimStartSkipsBlanks(w[1..], s);
    } else {
      assert w + s == s;
    }
  }

  lemma {:induction false} TrimEndSkipsBlanks(s: string, w: string)
    requires AllBlank(w)
    ensures TrimEnd(s + w) == TrimEnd(s)
  {
    if w != [] {
      var w' := w[..|w| - 1];
      assert (s + w)[..|s + w| - 1] == s + w';
      TrimEndSkipsBlanks(s, w');
    } else {
      assert s + w == s;
    }
  }

  lemma AllBlankAfterBlank(s: string)
    requires s != [] && IsBlank(s[0])
    ensures AllBlank(s) <==> AllBlank(s[1..])
  {
    if AllBlank(s[1..]) {
      forall i | 0 <= i < |s| ensures IsBlank(s[i]) {
        if i > 0 { assert s[i] == s[1..][i - 1]; }
      }
    }
  }

  /** Trailing blanks survive TrimStart unless the whole text is blank. */
  lemma {:induction false} TrimStartAppend(s: string, w: string)
    requires AllBlank(w)
    ensures AllBlank(s) ==> TrimStart(s + w) == []
    ensures !AllBlank(s) ==> TrimStart(s + w) == TrimStart(s) + w
  {
    if s == [] {
      assert s + w == w;
      TrimStartSkipsBlanks(w, []);
      assert w + [] == w;
    } else {
      assert (s + w)[1..] == s[1..] + w;
      TrimStartAppend(s[1..], w);
      if IsBlank(s[0]) {
        AllBlankAfterBlank(s);
      }
    }
  }

  /** Blanks around a text do not change what trimming it yields. */
  lemma TrimIgnoresPadding(w1: string, s: string, w2: string)
    requires AllBlank(w1) && AllBlank(w2)
    ensures Trim(w1 + s + w2) == Trim(s)
  {
    assert w1 + s + w2 == w1 + (s + w2);
    TrimStartSkipsBlanks(w1, s + w2);
    TrimStartAppend(s, w2);
    if AllBlank(s) {
      assert TrimStart(s) == [] by {
        TrimStartSkipsBlanks(s, []);
        assert s + [] == s;
      }
    } else {
      TrimEndSkipsBlanks(TrimStart(s), w2);
    }
  }
}
