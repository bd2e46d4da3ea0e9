/**
 * The two text helpers the container takes from a utility library that is not
 * part of this model, given their plain meaning: a suffix test, and the part
 * of a qualified name after its last backslash.
 */
module Text {

  /** True when `suffix` is a suffix of `s`. */
  predicate EndsWith(s: string, suffix: string)
  {
    |suffix| <= |s| && s[|s| - |suffix|..] == suffix
  }

  /** The last backslash-separated segment of `s`: all of `s` when it holds no backslash. */
  function LastToken(s: string): (r: string)
    ensures EndsWith(s, r)
    ensures '\\' !in r
    ensures r == s || s[|s| - |r| - 1] == '\\'
  {
    if s == [] then []
    else if s[|s| - 1] == '\\' then []
    else
      var init := s[..|s| - 1];
      var t := LastToken(init);
      assert init[|init| - |t|..] == t;
      assert s[|s| - |t| - 1..] == init[|init| - |t|..] + [s[|s| - 1]];
      t + [s[|s| - 1]]
  }

  /** Whatever precedes the last backslash does not change the last segment. */
  lemma {:induction false} LastTokenAfterSeparator(prefix: string, name: string)
    ensures LastToken(prefix + "\\" + name) == LastToken(name)
    decreases |name|
  {
    var s := prefix + "\\" + name;
    if name == [] {
      assert s[|s| - 1] == '\\';
    } else {
      var init := name[..|name| - 1];
      var last := name[|name| - 1];
      assert s == (prefix + "\\" + init) + [last];
      if last != '\\' {
        LastTokenAfterSeparator(prefix, init);
      }
    }
  }

  /** A name without a backslash is its own last segment. */
  lemma PlainNameIsLastToken(name: string)
    requires '\\' !in name
    ensures LastToken(name) == name
  {
  }
}
