/** The few java.lang.String operations the adaptor uses, on `seq<char>`. */
module Strings {

  /** String.endsWith. */
  predicate EndsWith(s: string, suffix: string)
  {
    |suffix| <= |s| && s[|s| - |suffix|..] == suffix
  }

  /** String.replace(char, char): every occurrence of `from` becomes `to`. */
  function Replace(s: string, from: char, to: char): (r: string)
    ensures |r| == |s|
    ensures from != to ==> from !in r
    ensures forall i | 0 <= i < |s| && s[i] != from :: r[i] == s[i]
    ensures forall i | 0 <= i < |s| && s[i] == from :: r[i] == to
  {
    seq(|s|, i requires 0 <= i < |s| => if s[i] == from then to else s[i])
  }

  lemma ReplaceAppend(a: string, b: string, from: char, to: char)
    ensures Replace(a + b, from, to) == Replace(a, from, to) + Replace(b, from, to)
  {
  }

  lemma ReplaceAbsent(s: string, from: char, to: char)
    requires from !in s
    ensures Replace(s, from, to) == s
  {
  }

  /** The strings `xs` separated by `sep`: String.join. */
  function Join(xs: seq<string>, sep: char): string
  {
    if |xs| == 0 then ""
    else if |xs| == 1 then xs[0]
    else Join(xs[..|xs| - 1], sep) + [sep] + xs[|xs| - 1]
  }

  /** Replacing the separator of a join, when no joined string holds it, re-joins with the new one. */
  lemma {:induction false} ReplaceJoin(xs: seq<string>, from: char, to: char)
    requires forall i | 0 <= i < |xs| :: from !in xs[i]
    ensures Replace(Join(xs, from), from, to) == Join(xs, to)
  {
    if |xs| == 1 {
      ReplaceAbsent(xs[0], from, to);
    } else if |xs| > 1 {
      var init, last := xs[..|xs| - 1], xs[|xs| - 1];
      ReplaceJoin(init, from, to);
      ReplaceAppend(Join(init, from) + [from], last, from, to);
      ReplaceAppend(Join(init, from), [from], from, to);
      ReplaceAbsent(last, from, to);
    }
  }

  /**
   * A suffix free of `sep` ends `prefix + sep + last` exactly when it ends `last`:
   * a longer window would take in the separator.
   */
  lemma EndsWithAfterSeparator(prefix: string, sep: char, last: string, suffix: string)
    requires sep !in suffix
    ensures EndsWith(prefix + [sep] + last, suffix) <==> EndsWith(last, suffix)
  {
    var s := prefix + [sep] + last;
    if |suffix| <= |last| {
      assert s[|s| - |suffix|..] == last[|last| - |suffix|..];
    } else if |suffix| <= |s| {
      var at := |prefix|;
      assert s[at] == sep;
      var w := s[|s| - |suffix|..];
      assert w[at - (|s| - |suffix|)] == sep;
      assert w != suffix;
    }
  }
}
