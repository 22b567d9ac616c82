/** Regular expressions: one string holding a pattern, a NUL and options. */
module Regexes {
  import opened Bytes
  import opened Values

  function PatternOf(source: Bytes): (r: Bytes)
  {
    var nul := LastIndexOf(source, 0);
    if nul >= 0 then source[..nul] else source
  }

  function OptionsOf(source: Bytes): (r: Bytes)
  {
    var nul := LastIndexOf(source, 0);
    if nul >= 0 then source[nul + 1..] else []
  }

  /** A pattern, a NUL and options, the pattern not empty and neither holding a further NUL. */
  ghost predicate RegexSource(s: Bytes)
  {
    exists k :: 0 < k < |s| && s[k] == 0 && forall i :: 0 <= i < |s| && i != k ==> s[i] != 0
  }

  /** A pattern and options rebuild the source they were split from exactly when the split was at its only NUL. */
  lemma RegexRebuilt(source: Bytes)
    ensures MakeRegex(PatternOf(source), OptionsOf(source)) == Some(Regex(source))
       <==> RegexSource(source) && |source| <= MAX_STRING_LEN - 1
    ensures OptionsOf(source) != [] ==> MakeRegex(PatternOf(source), []) != Some(Regex(source))
  {
    hide CString, LastIndexOf, RegexSource;
    var k, p, o := LastIndexOf(source, 0), PatternOf(source), OptionsOf(source);
    RegexSplit(source);
    CStringWhole(p);
    CStringWhole(o);
    CStringWhole([]);
    if k >= 0 {
      RegexParts(source, k);
    } else {
      NoNul(p, o, source);
    }
  }

  lemma NoNul(p: Bytes, o: Bytes, source: Bytes)
    requires 0 !in source
    ensures CString(p) + [0] + CString(o) != source && !RegexSource(source)
  {
    assert (CString(p) + [0] + CString(o))[|CString(p)|] == 0;
  }

  lemma RegexSplit(source: Bytes)
    ensures var k := LastIndexOf(source, 0);
      if k >= 0 then source == PatternOf(source) + [0] + OptionsOf(source) && |PatternOf(source)| == k && 0 !in OptionsOf(source)
      else 0 !in source && OptionsOf(source) == []
  {
    hide LastIndexOf;
    LastIndexFound(source, 0);
  }

  /** The two parts of a source, and nothing else in it. */
  lemma SourceSplit(s: Bytes)
    requires RegexSource(s)
    ensures s == PatternOf(s) + [0] + OptionsOf(s) && PatternOf(s) != [] && 0 !in PatternOf(s) && 0 !in OptionsOf(s)
  {
    hide LastIndexOf;
    RegexSplit(s);
    assert 0 in s;
    RegexParts(s, LastIndexOf(s, 0));
  }

  lemma RegexParts(source: Bytes, k: nat)
    requires k == LastIndexOf(source, 0)
    ensures CString(source[..k]) + [0] + CString(source[k + 1..]) == source <==> 0 !in source[..k]
    ensures RegexSource(source) <==> k > 0 && 0 !in source[..k]
  {
    hide CString, LastIndexOf;
    LastIndexFound(source, 0);
    var p, o := source[..k], source[k + 1..];
    CStringWhole(p);
    CStringWhole(o);
    assert source == p + [0] + o;
    var made := CString(p) + [0] + CString(o);
    assert |made| == |CString(p)| + 1 + |CString(o)|;
    if RegexSource(source) {
      var j :| 0 < j < |source| && source[j] == 0 && forall i :: 0 <= i < |source| && i != j ==> source[i] != 0;
      assert j == k;
    }
  }
}
