/** Path strings as src/directory.rs takes them apart: slashes trimmed at both ends, then split. */
module Paths {

  function TrimStart(s: string): (r: string)
    ensures r == "" || r[0] != '/'
    ensures |r| <= |s|
  {
    if s != "" && s[0] == '/' then TrimStart(s[1..]) else s
  }

  function TrimEnd(s: string): (r: string)
    ensures r == "" || r[|r| - 1] != '/'
    ensures r <= s
  {
    if s != "" && s[|s| - 1] == '/' then TrimEnd(s[..|s| - 1]) else s
  }

  function Normalize(path: string): (r: string)
    ensures r == "" || (r[0] != '/' && r[|r| - 1] != '/')
  {
    TrimEnd(TrimStart(path))
  }

  function Slashes(n: nat): (s: string)
    ensures |s| == n
  {
    seq(n, _ => '/')
  }

  /** No slash at either end. */
  predicate Bare(s: string) {
    s == "" || (s[0] != '/' && s[|s| - 1] != '/')
  }

  lemma {:induction false} SlashesInFront(n: nat, s: string)
    requires s == "" || s[0] != '/'
    ensures TrimStart(Slashes(n) + s) == s
  {
    if n == 0 {
      assert Slashes(0) + s == s;
    } else {
      SlashesInFront(n - 1, s);
      assert (Slashes(n) + s)[1..] == Slashes(n - 1) + s;
    }
  }

  lemma {:induction false} SlashesBehind(s: string, n: nat)
    requires s == "" || s[|s| - 1] != '/'
    ensures TrimEnd(s + Slashes(n)) == s
  {
    if n == 0 {
      assert s + Slashes(0) == s;
    } else {
      SlashesBehind(s, n - 1);
      assert (s + Slashes(n))[..|s| + n - 1] == s + Slashes(n - 1);
    }
  }

  /** Trimming takes away all slashes at both ends and nothing else. */
  lemma TrimsSlashes(a: nat, s: string, b: nat)
    requires Bare(s)
    ensures Normalize(Slashes(a) + s + Slashes(b)) == s
  {
    var path := Slashes(a) + s + Slashes(b);
    if s == "" {
      assert path == Slashes(a + b) + "";
      SlashesInFront(a + b, "");
    } else {
      assert path == Slashes(a) + (s + Slashes(b));
      SlashesInFront(a, s + Slashes(b));
      SlashesBehind(s, b);
    }
  }

  predicate Plain(s: string) {
    '/' !in s
  }

  /** One more character in front: a slash opens a new part, any other joins the first. */
  function Extended(c: char, parts: seq<string>): (r: seq<string>)
    requires parts != []
    ensures r != []
  {
    if c == '/' then [""] + parts else [[c] + parts[0]] + parts[1..]
  }

  /** `split('/')`: at least one part, none with a slash in it. */
  function Split(s: string): (parts: seq<string>)
    ensures parts != []
    ensures forall i :: 0 <= i < |parts| ==> Plain(parts[i])
  {
    if s == "" then [""] else Extended(s[0], Split(s[1..]))
  }

  lemma ExtendedAppend(c: char, a: seq<string>, b: seq<string>)
    requires a != []
    ensures Extended(c, a + b) == Extended(c, a) + b
  {
    assert (a + b)[1..] == a[1..] + b;
  }

  lemma {:induction false} SplitPlain(s: string)
    requires Plain(s)
    ensures Split(s) == [s]
  {
    if s == "" {
    } else {
      SplitPlain(s[1..]);
      assert s == [s[0]] + s[1..];
    }
  }

  /** Splitting at a slash. */
  lemma {:induction false} SplitAtSlash(a: string, b: string)
    ensures Split(a + "/" + b) == Split(a) + Split(b)
  {
    var s := a + "/" + b;
    if a == "" {
      assert s[1..] == b;
    } else {
      SplitAtSlash(a[1..], b);
      assert s[0] == a[0] && s[1..] == a[1..] + "/" + b;
      ExtendedAppend(a[0], Split(a[1..]), Split(b));
    }
  }

  lemma {:induction false} SplitLength(s: string)
    ensures |Split(s)| == 1 <==> Plain(s)
  {
    if Plain(s) {
      SplitPlain(s);
    } else {
      SlashSplits(s);
    }
  }

  lemma {:induction false} SlashSplits(s: string)
    requires !Plain(s)
    ensures |Split(s)| >= 2
  {
    if s[0] == '/' {
    } else {
      SlashSplits(s[1..]);
    }
  }

  /** A string without a slash at its end has a last part, one without a slash at its front a
      first part. */
  lemma {:induction false} EndParts(s: string)
    requires s != ""
    ensures s[|s| - 1] != '/' ==> Split(s)[|Split(s)| - 1] != ""
    ensures s[0] != '/' ==> Split(s)[0] != ""
  {
    if |s| == 1 {
      assert s[1..] == "";
    } else {
      EndParts(s[1..]);
    }
  }

  /** A bare name is not changed by trimming. */
  lemma PlainNormalized(s: string)
    requires s != "" && Plain(s)
    ensures Normalize(s) == s
  {
    assert s[0] in s && s[|s| - 1] in s;
  }

  /** A path put together from a directory and a file name is not changed by trimming. */
  lemma NormalizeJoined(dir: string, file: string)
    requires dir != "" && dir[0] != '/' && file != "" && file[|file| - 1] != '/'
    ensures Normalize(dir + "/" + file) == dir + "/" + file
  {
  }

  /** And it comes apart again. */
  lemma SplitJoined(dir: string, file: string)
    requires Plain(file)
    ensures Split(dir + "/" + file) == Split(dir) + [file]
    ensures |Split(dir + "/" + file)| == 2 <==> Plain(dir)
    ensures Plain(dir) ==> Split(dir + "/" + file) == [dir, file]
  {
    SplitAtSlash(dir, file);
    SplitPlain(file);
    SplitLength(dir);
    if Plain(dir) {
      SplitPlain(dir);
    }
  }
}
