/** Text split at slashes. */
module SlashPaths {
  function SplitSlash(s: string): (parts: seq<string>)
    ensures parts != []
  {
    if s == "" then [""]
    else
      var rest := SplitSlash(s[1..]);
      if s[0] == '/' then [""] + rest else [[s[0]] + rest[0]] + rest[1..]
  }

  lemma {:induction false} SplitName(n: string)
    requires '/' !in n
    ensures SplitSlash(n) == [n]
  {
    if n != "" {
      SplitName(n[1..]);
      assert n == [n[0]] + n[1..];
    }
  }

  /** A part without slashes before the first slash is the first part. */
  lemma {:induction false} SplitAfterName(n: string, rest: string)
    requires '/' !in n
    ensures SplitSlash(n + "/" + rest) == [n] + SplitSlash(rest)
  {
    var s := n + "/" + rest;
    if n == "" {
      assert s[1..] == rest;
    } else {
      SplitAfterName(n[1..], rest);
      assert s[1..] == n[1..] + "/" + rest;
      assert n == [n[0]] + n[1..] && s[0] == n[0] != '/';
    }
  }
}
