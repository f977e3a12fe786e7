/** The key `generate_js_hash` derives from a script so that the front end
    re-mounts the map only when the map really changed: the random parts of
    the variable names and of Google Earth Engine tile URLs are deleted, the
    user's key is mixed in, and the result is hashed. */
module JsHash {
  import opened Text
  import opened Wrappers

  /** A character of the class `[a-z0-9]`. */
  predicate IsWordChar(c: char) {
    'a' <= c <= 'z' || '0' <= c <= '9'
  }

  /** A character of the class `[-a-z0-9]`. */
  predicate IsUrlChar(c: char) {
    c == '-' || IsWordChar(c)
  }

  /** The length of the longest prefix of `s` made of word characters: what
      the greedy `[a-z0-9]+` takes. */
  function WordRun(s: string): (n: nat)
    ensures n <= |s|
  {
    if s == [] || !IsWordChar(s[0]) then 0 else 1 + WordRun(s[1..])
  }

  /** The run is made of word characters and is followed by none. */
  lemma {:induction false} WordRunGreedy(s: string)
    ensures forall i :: 0 <= i < WordRun(s) ==> IsWordChar(s[i])
    ensures WordRun(s) < |s| ==> !IsWordChar(s[WordRun(s)])
  {
    if s != [] && IsWordChar(s[0]) {
      WordRunGreedy(s[1..]);
      assert forall i :: 1 <= i < WordRun(s) ==> s[i] == s[1..][i - 1];
    }
  }

  /** The length of the longest prefix of `s` made of `[-a-z0-9]` characters. */
  function UrlRun(s: string): (n: nat)
    ensures n <= |s|
  {
    if s == [] || !IsUrlChar(s[0]) then 0 else 1 + UrlRun(s[1..])
  }

  /** The run is made of `[-a-z0-9]` characters and is followed by none. */
  lemma {:induction false} UrlRunGreedy(s: string)
    ensures forall i :: 0 <= i < UrlRun(s) ==> IsUrlChar(s[i])
    ensures UrlRun(s) < |s| ==> !IsUrlChar(s[UrlRun(s)])
  {
    if s != [] && IsUrlChar(s[0]) {
      UrlRunGreedy(s[1..]);
      assert forall i :: 1 <= i < UrlRun(s) ==> s[i] == s[1..][i - 1];
    }
  }

  /** No underscore is followed by a word character. */
  predicate NoSuffix(s: string) {
    forall i :: 0 <= i < |s| - 1 && s[i] == '_' ==> !IsWordChar(s[i + 1])
  }

  /** `s` is empty or does not start with a word character. */
  predicate Boundary(s: string) {
    s == [] || !IsWordChar(s[0])
  }

  /** `re.sub(r"(_[a-z0-9]+)", "", s)`: scanning left to right, every
      underscore followed by word characters is deleted together with the
      longest run of them, and the scan resumes after the run. */
  function StripSuffixes(s: string): (r: string)
    ensures |r| <= |s|
    decreases |s|
  {
    if s == [] then []
    else if s[0] == '_' && |s| > 1 && IsWordChar(s[1]) then StripSuffixes(s[1 + WordRun(s[1..])..])
    else [s[0]] + StripSuffixes(s[1..])
  }

  /** What is left has no underscore followed by a word character, and
      deleting never makes a word character the first one. */
  lemma {:induction false} StripLeavesNoSuffix(s: string)
    ensures NoSuffix(StripSuffixes(s))
    ensures Boundary(s) ==> Boundary(StripSuffixes(s))
    decreases |s|
  {
    if s == [] {
    } else if s[0] == '_' && |s| > 1 && IsWordChar(s[1]) {
      var k := 1 + WordRun(s[1..]);
      WordRunGreedy(s[1..]);
      StripLeavesNoSuffix(s[k..]);
    } else {
      StripLeavesNoSuffix(s[1..]);
      var rest := StripSuffixes(s[1..]);
      assert s[0] == '_' ==> Boundary(s[1..]);
      assert forall i :: 1 <= i < |rest| + 1 ==> ([s[0]] + rest)[i] == rest[i - 1];
    }
  }

  /** The Google Earth Engine path segment `maps/` + `[-a-z0-9]+` + `/`. */
  const Maps := "maps/"

  /** The length of the segment `maps/<run>/` at the start of `s`, or 0 when
      `s` does not start with one. As `[-a-z0-9]` excludes `/`, only the
      longest run can be followed by the closing `/`. */
  function UrlMatch(s: string): (n: nat)
    ensures n <= |s| && (n > 0 ==> n >= |Maps| + 2)
  {
    if |s| >= |Maps| && s[..|Maps|] == Maps then
      var k := UrlRun(s[|Maps|..]);
      if k > 0 && |Maps| + k < |s| && s[|Maps| + k] == '/' then |Maps| + k + 1 else 0
    else 0
  }

  /** `re.sub(r"(maps\/[-a-z0-9]+\/)", "", s)`. */
  function StripUrls(s: string): (r: string)
    ensures |r| <= |s|
    decreases |s|
  {
    if s == [] then []
    else if UrlMatch(s) > 0 then StripUrls(s[UrlMatch(s)..])
    else [s[0]] + StripUrls(s[1..])
  }

  /** `str(key)`: None prints as "None". */
  function KeyStr(key: Option<string>): string {
    if key.None? then "None" else key.value
  }

  /** The text that is hashed: suffixes stripped, key appended, tile URLs
      stripped, key appended again. */
  function Normalise(js: string, key: Option<string>): (r: string)
    ensures |KeyStr(key)| <= |r| <= |js| + 2 * |KeyStr(key)|
    ensures r[|r| - |KeyStr(key)|..] == KeyStr(key)
  {
    StripUrls(StripSuffixes(js) + KeyStr(key)) + KeyStr(key)
  }

  /** `generate_js_hash(js, key)`; `digest` stands for the hex SHA-256 of the
      UTF-8 encoding. A script whose suffixes were already stripped hashes as
      the original. */
  function Hash(js: string, key: Option<string>, digest: string -> string): (r: string)
    ensures r == digest(Normalise(StripSuffixes(js), key))
  {
    StripIdempotent(js);
    digest(Normalise(js, key))
  }

  /** The stripped text has no suffix left to strip. */
  lemma {:induction false} StripNoSuffix(s: string)
    requires NoSuffix(s)
    ensures StripSuffixes(s) == s
    decreases |s|
  {
    if s != [] {
      assert !(s[0] == '_' && |s| > 1 && IsWordChar(s[1]));
      StripNoSuffix(s[1..]);
      assert s == [s[0]] + s[1..];
    }
  }

  /** Stripping twice strips nothing more. */
  lemma StripIdempotent(s: string)
    ensures StripSuffixes(StripSuffixes(s)) == StripSuffixes(s)
  {
    StripLeavesNoSuffix(s);
    StripNoSuffix(StripSuffixes(s));
  }

  /** A run stops at a non-word character: text after one does not change it. */
  lemma {:induction false} WordRunConcat(x: string, y: string)
    requires Boundary(y)
    ensures WordRun(x + y) == WordRun(x)
  {
    if x != [] && IsWordChar(x[0]) {
      assert (x + y)[1..] == x[1..] + y;
      WordRunConcat(x[1..], y);
    }
  }

  /** Text joined at a non-word character is stripped piece by piece. */
  lemma {:induction false} StripConcat(a: string, b: string)
    requires Boundary(b)
    ensures StripSuffixes(a + b) == StripSuffixes(a) + StripSuffixes(b)
    decreases |a|, 1
  {
    if a == [] {
      assert a + b == b;
    } else if a[0] == '_' && |a| > 1 && IsWordChar(a[1]) {
      StripConcatSkip(a, b);
    } else {
      StripConcatKeep(a, b);
    }
  }

  /** The case where `a` starts with a suffix: it is deleted within `a`. */
  lemma {:induction false} StripConcatSkip(a: string, b: string)
    requires Boundary(b) && |a| > 1 && a[0] == '_' && IsWordChar(a[1])
    ensures StripSuffixes(a + b) == StripSuffixes(a) + StripSuffixes(b)
    decreases |a|, 0
  {
    var s := a + b;
    var k := 1 + WordRun(a[1..]);
    assert StripSuffixes(s) == StripSuffixes(s[k..]) by {
      DropConcat(a, b, 1);
      WordRunConcat(a[1..], b);
      StripSkip(s);
    }
    assert s[k..] == a[k..] + b by {
      DropConcat(a, b, k);
    }
    assert StripSuffixes(a[k..] + b) == StripSuffixes(a[k..]) + StripSuffixes(b) by {
      StripConcat(a[k..], b);
    }
    assert StripSuffixes(a) == StripSuffixes(a[k..]) by {
      StripSkip(a);
    }
  }

  /** A leading suffix is deleted and the scan resumes after it. */
  lemma StripSkip(s: string)
    requires |s| > 1 && s[0] == '_' && IsWordChar(s[1])
    ensures StripSuffixes(s) == StripSuffixes(s[1 + WordRun(s[1..])..])
  {
  }

  /** Dropping a prefix of `a` from `a + b`. */
  lemma DropConcat(a: string, b: string, k: nat)
    requires k <= |a|
    ensures (a + b)[k..] == a[k..] + b && (k < |a| ==> (a + b)[k] == a[k])
  {
  }

  /** The case where `a` starts with a character that is kept. */
  lemma {:induction false} StripConcatKeep(a: string, b: string)
    requires Boundary(b) && a != [] && !(a[0] == '_' && |a| > 1 && IsWordChar(a[1]))
    ensures StripSuffixes(a + b) == StripSuffixes(a) + StripSuffixes(b)
    decreases |a|, 0
  {
    var s := a + b;
    assert StripSuffixes(s) == [a[0]] + StripSuffixes(a[1..] + b) by {
      KeptHead(a, b);
      DropConcat(a, b, 1);
      DropConcat(a, b, 0);
      StripKeep(s);
    }
    assert StripSuffixes(a[1..] + b) == StripSuffixes(a[1..]) + StripSuffixes(b) by {
      StripConcat(a[1..], b);
    }
    assert StripSuffixes(a) == [a[0]] + StripSuffixes(a[1..]) by {
      StripKeep(a);
    }
    Assoc([a[0]], StripSuffixes(a[1..]), StripSuffixes(b));
  }

  lemma Assoc(x: string, y: string, z: string)
    ensures x + (y + z) == (x + y) + z
  {
  }

  /** A head character that does not start a suffix is kept. */
  lemma StripKeep(s: string)
    requires s != [] && !(s[0] == '_' && |s| > 1 && IsWordChar(s[1]))
    ensures StripSuffixes(s) == [s[0]] + StripSuffixes(s[1..])
  {
  }

  /** A head character that `a` keeps is kept in `a + b` too. */
  lemma KeptHead(a: string, b: string)
    requires Boundary(b) && a != [] && !(a[0] == '_' && |a| > 1 && IsWordChar(a[1]))
    ensures var s := a + b; !(s[0] == '_' && |s| > 1 && IsWordChar(s[1]))
  {
    var s := a + b;
    if |a| > 1 {
      assert s[1] == a[1];
    } else if |s| > 1 {
      assert s[1] == b[0];
    }
  }

  /** A string of word characters is one run. */
  lemma {:induction false} WordRunAll(h: string)
    requires forall i :: 0 <= i < |h| ==> IsWordChar(h[i])
    ensures WordRun(h) == |h|
  {
    if h != [] {
      WordRunAll(h[1..]);
    }
  }

  /** A run of `[-a-z0-9]` characters ends where such characters end. */
  lemma {:induction false} UrlRunAll(u: string, b: string)
    requires forall i :: 0 <= i < |u| ==> IsUrlChar(u[i])
    requires b != [] && !IsUrlChar(b[0])
    ensures UrlRun(u + b) == |u|
  {
    if u != [] {
      assert (u + b)[1..] == u[1..] + b;
      UrlRunAll(u[1..], b);
    } else {
      assert u + b == b;
    }
  }

  /** `_` + a run of word characters, at a boundary, strips to nothing. */
  lemma StripOneSuffix(h: string, b: string)
    requires |h| > 0 && (forall i :: 0 <= i < |h| ==> IsWordChar(h[i])) && Boundary(b)
    ensures StripSuffixes(['_'] + h + b) == StripSuffixes(b)
  {
    var s := ['_'] + h + b;
    assert s[1..] == h + b && s[1] == h[0];
    WordRunConcat(h, b);
    WordRunAll(h);
    assert s[1 + |h|..] == b;
  }

  /** A leading tile-URL segment `maps/<run>/` is deleted whole, and the
      scan goes on after it. */
  lemma StripOneUrl(u: string, b: string)
    requires |u| > 0 && forall i :: 0 <= i < |u| ==> IsUrlChar(u[i])
    ensures StripUrls(Maps + u + ['/'] + b) == StripUrls(b)
  {
    var s := Maps + u + ['/'] + b;
    assert s[..|Maps|] == Maps;
    var rest := s[|Maps|..];
    assert rest == u + (['/'] + b);
    UrlRunAll(u, ['/'] + b);
    assert s[|Maps| + |u|] == '/';
    assert s[UrlMatch(s)..] == b;
  }

  /** Text without `maps/` has no tile URL to delete. */
  lemma {:induction false} StripUrlsAbsent(s: string)
    requires !Contains(s, Maps)
    ensures StripUrls(s) == s
    decreases |s|
  {
    if s != [] {
      assert !OccursAt(s, Maps, 0);
      assert !Contains(s[1..], Maps) by {
        if Contains(s[1..], Maps) {
          var i: nat :| i <= |s[1..]| && OccursAt(s[1..], Maps, i);
          OccursAtShift(s, Maps, i);
          assert false;
        }
      }
      StripUrlsAbsent(s[1..]);
      assert s == [s[0]] + s[1..];
    }
  }

  /** The hash ignores the random suffix of a variable name: two scripts that
      differ only in the word characters after one underscore, where the
      suffix ends at a non-word character or at the end, hash the same. */
  lemma HashIgnoresSuffix(a: string, h1: string, h2: string, b: string,
                          key: Option<string>, digest: string -> string)
    requires |h1| > 0 && forall i :: 0 <= i < |h1| ==> IsWordChar(h1[i])
    requires |h2| > 0 && forall i :: 0 <= i < |h2| ==> IsWordChar(h2[i])
    requires Boundary(b)
    ensures Hash(a + ['_'] + h1 + b, key, digest) == Hash(a + ['_'] + h2 + b, key, digest)
  {
    assert a + ['_'] + h1 + b == a + (['_'] + h1 + b);
    assert a + ['_'] + h2 + b == a + (['_'] + h2 + b);
    StripConcat(a, ['_'] + h1 + b);
    StripConcat(a, ['_'] + h2 + b);
    StripOneSuffix(h1, b);
    StripOneSuffix(h2, b);
  }
}
