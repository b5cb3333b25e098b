/**
 * Extraction of the SDK version from the output of `dotnet --version`
 * (getVersionNumber). The tool may print a first-run banner before the
 * version and pads its output with `\n` or `\r\n`; the version is the last
 * line of the trimmed output.
 */
module DotnetVersion {
  import opened Wrappers
  import opened Text

  /** The text after the last line feed, or all of `s` when it has none. */
  function LastLine(s: string): (r: string)
    ensures '\n' !in r
    ensures |r| <= |s| && r == s[|s| - |r|..]
    ensures r != s ==> s[|s| - |r| - 1] == '\n'
  {
    match LastIndexOf(s, '\n')
    case None => s
    case Some(i) => s[i + 1..]
  }

  function VersionNumber(output: string): (r: string)
    ensures Trimmed(r) && '\n' !in r
  {
    Trim(LastLine(Trim(output)))
  }

  /** Empty output yields the empty version rather than a failure. */
  lemma EmptyOutputHasEmptyVersion()
    ensures VersionNumber("") == ""
  {
  }

  /** Line breaks and blanks around the output are ignored. */
  lemma VersionIgnoresPadding(w1: string, s: string, w2: string)
    requires AllBlank(w1) && AllBlank(w2)
    ensures VersionNumber(w1 + s + w2) == VersionNumber(s)
  {
    TrimIgnoresPadding(w1, s, w2);
  }

  /** A single trimmed line is its own version; so extraction is idempotent. */
  lemma VersionOfVersionLine(v: string)
    requires Trimmed(v) && '\n' !in v
    ensures VersionNumber(v) == v
  {
    TrimOfTrimmed(v);
  }

  lemma VersionIsIdempotent(output: string)
    ensures VersionNumber(VersionNumber(output)) == VersionNumber(output)
  {
    VersionOfVersionLine(VersionNumber(output));
  }

  lemma LastLineAfterBreak(p: string, v: string)
    requires '\n' !in v
    ensures LastLine(p + "\n" + v) == v
  {
    var t := p + "\n" + v;
    assert t[|p|] == '\n';
    assert t[|p| + 1..] == v;
  }

  /**
   * Whatever banner precedes it, a non-empty trimmed last line is the
   * version. Banner lines may end in `\r\n`: the `\r` belongs to `banner`.
   */
  lemma VersionIsLastLine(banner: string, v: string)
    requires v != [] && Trimmed(v) && '\n' !in v
    ensures VersionNumber(banner + "\n" + v) == v
  {
    var x := banner + "\n" + v;
    var t := TrimStart(x);
    var k := |x| - |t|;
    assert k <= |banner| + 1 by {
      TrimStartDropsBlanks(x);
      assert x[|banner| + 1] == v[0];
    }
    assert t == x[k..];
    assert t[|t| - 1] == v[|v| - 1];
    assert TrimEnd(t) == t;
    if k == |banner| + 1 {
      assert t == v;
    } else {
      assert t == banner[k..] + "\n" + v;
      LastLineAfterBreak(banner[k..], v);
    }
    TrimOfTrimmed(v);
  }

  lemma VersionOfSimpleValue()
    ensures VersionNumber("5.0") == "5.0"
  {
    VersionOfVersionLine("5.0");
  }

  lemma VersionWithSurroundingNewlines(newline: string)
    requires newline == "\n" || newline == "\r\n"
    ensures VersionNumber(newline + "5.0" + newline) == "5.0"
  {
    VersionIgnoresPadding(newline, "5.0", newline);
    VersionOfSimpleValue();
  }

  lemma VersionAfterFirstRunBanner(newline: string)
    requires newline == "\n" || newline == "\r\n"
    ensures VersionNumber(newline + "Welcome to .NET 5.0!" + newline + "--------" + newline + "5.0.101")
         == "5.0.101"
  {
    var banner := newline + "Welcome to .NET 5.0!" + newline + "--------" + newline[..|newline| - 1];
    assert newline == newline[..|newline| - 1] + "\n";
    assert banner + "\n" + "5.0.101"
      == newline + "Welcome to .NET 5.0!" + newline + "--------" + newline + "5.0.101";
    VersionIsLastLine(banner, "5.0.101");
  }
}
