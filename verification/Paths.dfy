/** The C string functions of src/lib/str.c that take paths apart. */
module Paths {
  import opened Basics

  const NUL: char := '\0'


  // ----- Strings in memory -------------------------------------------------------------------

  /** Characters that end in a NUL, so that no string in them runs out. */
  predicate Terminated(m: seq<char>)
  {
    m != [] && m[|m| - 1] == NUL
  }

  /** Length of the string at `at`. */
  function Len(m: seq<char>, at: nat): (n: nat)
    requires Terminated(m) && at < |m|
    ensures at + n < |m| && m[at + n] == NUL && NUL !in m[at..at + n]
  {
    ToNul(m, at)
  }

  function ToNul(m: seq<char>, at: nat): (n: nat)
    requires Terminated(m) && at < |m|
    ensures at + n < |m| && m[at + n] == NUL && NUL !in m[at..at + n]
    decreases |m| - at
  {
    if m[at] == NUL then 0
    else
      var n := ToNul(m, at + 1);
      assert m[at..at + 1 + n] == [m[at]] + m[at + 1..at + 1 + n];
      1 + n
  }

  lemma Absent<T>(m: seq<T>, c: T, i: nat, j: nat)
    requires i <= j <= |m| && c !in m[i..j]
    ensures forall k :: i <= k < j ==> m[k] != c
  {
    forall k | i <= k < j ensures m[k] != c {
      assert m[i..j][k - i] == m[k];
    }
  }

  /** The string at `at`. */
  function CStr(m: seq<char>, at: nat): (s: string)
    requires Terminated(m) && at < |m|
    ensures NUL !in s
  {
    m[at..at + Len(m, at)]
  }

  /** The first NUL decides the length. */
  lemma LenIs(m: seq<char>, at: nat, n: nat)
    requires Terminated(m) && at + n < |m| && m[at + n] == NUL && NUL !in m[at..at + n]
    ensures Len(m, at) == n && CStr(m, at) == m[at..at + n]
  {
    Absent(m, NUL, at, at + n);
    Absent(m, NUL, at, at + Len(m, at));
  }

  method StrLen(m: seq<char>, at: nat) returns (n: nat)
    requires Terminated(m) && at < |m|
    ensures n == |CStr(m, at)|
  {
    n := 0;
    while m[at + n] != NUL
      invariant at + n < |m| && NUL !in m[at..at + n]
      decreases |m| - n
    {
      assert m[at..at + n + 1] == m[at..at + n] + [m[at + n]];
      n := n + 1;
    }
    LenIs(m, at, n);
  }

  /** strchr: the first `c`; the terminator counts as a character. */
  method StrChr(m: seq<char>, at: nat, c: char) returns (r: int)
    requires Terminated(m) && at < |m|
    ensures r >= -1
    ensures r == -1 <==> c != NUL && c !in CStr(m, at)
    ensures r >= 0 ==> at <= r <= at + |CStr(m, at)| && m[r] == c && c !in m[at..r]
  {
    r := at;
    while m[r] != c
      invariant at <= r < |m| && c !in m[at..r] && NUL !in m[at..r]
      decreases |m| - r
    {
      if m[r] == NUL {
        LenIs(m, at, r - at);
        return -1;
      }
      assert m[at..r + 1] == m[at..r] + [m[r]];
      r := r + 1;
    }
    Absent(m, NUL, at, r);
    assert at + Len(m, at) >= r;
    assert r < at + Len(m, at) ==> CStr(m, at)[r - at] == c;
  }

  /** `sub` stands in `s` at `i`. */
  predicate OccursAt(s: string, sub: string, i: nat)
  {
    i + |sub| <= |s| && s[i..i + |sub|] == sub
  }

  /** strstr: the first occurrence. */
  method StrStr(m: seq<char>, at: nat, sub: seq<char>) returns (r: int)
    requires Terminated(m) && at < |m| && Terminated(sub)
    ensures r >= -1
    ensures r == -1 ==> forall i: nat :: !OccursAt(CStr(m, at), CStr(sub, 0), i)
    ensures r >= 0 ==> r >= at && OccursAt(CStr(m, at), CStr(sub, 0), r - at)
    ensures r >= 0 ==> forall i: nat :: i < r - at ==> !OccursAt(CStr(m, at), CStr(sub, 0), i)
  {
    var a, b := at, 0;
    r := at;
    ghost var s, t := CStr(m, at), CStr(sub, 0);
    while true
      invariant at <= r && a == r + b && a - at <= |s| && b <= |t| && s[r - at..a - at] == t[..b]
      invariant forall i: nat :: i < r - at ==> !OccursAt(s, t, i)
      decreases |s| - (r - at), |t| - b
    {
      assert at + |s| < |m| && m[at + |s|] == NUL && sub[|t|] == NUL;
      assert b < |t| ==> t[b] == sub[b] != NUL;
      assert a - at < |s| ==> s[a - at] == m[a] != NUL;
      if sub[b] == NUL {
        assert t[..b] == t;
        return r;
      }
      if m[a] == NUL {
        assert forall i: nat :: i >= r - at ==> !OccursAt(s, t, i);
        return -1;
      }
      if m[a] != sub[b] {
        assert !OccursAt(s, t, r - at) by {
          assert r - at + |t| <= |s| ==> s[r - at..r - at + |t|][b] == s[a - at];
        }
        r := r + 1;
        a, b := r, 0;
        assert s[r - at..a - at] == t[..0];
      } else {
        assert s[r - at..a + 1 - at] == s[r - at..a - at] + [s[a - at]];
        assert t[..b + 1] == t[..b] + [t[b]];
        a, b := a + 1, b + 1;
      }
    }
  }

  // ----- Segments ------------------------------------------------------------------------------

  /** Index of the first slash, or the length. */
  function FirstSlash(s: string): (k: nat)
    ensures k <= |s| && '/' !in s[..k] && (k < |s| ==> s[k] == '/')
  {
    ToSlash(s)
  }

  function ToSlash(s: string): (k: nat)
    ensures k <= |s| && '/' !in s[..k] && (k < |s| ==> s[k] == '/')
  {
    if s == [] || s[0] == '/' then 0
    else
      var k := ToSlash(s[1..]);
      assert s[..k + 1] == [s[0]] + s[1..][..k];
      k + 1
  }

  lemma FirstSlashIs(s: string, k: nat)
    requires k <= |s| && '/' !in s[..k] && (k < |s| ==> s[k] == '/')
    ensures FirstSlash(s) == k
  {
    Absent(s, '/', 0, k);
    Absent(s, '/', 0, FirstSlash(s));
  }

  /** The segments between the slashes. */
  function Split(s: string): (segments: seq<string>)
    ensures segments != []
    decreases |s|
  {
    var k := FirstSlash(s);
    if k == |s| then [s] else [s[..k]] + Split(s[k + 1..])
  }

  function Join(segments: seq<string>): string
    requires segments != []
  {
    if |segments| == 1 then segments[0] else segments[0] + "/" + Join(segments[1..])
  }

  ghost predicate NoSlashes(segments: seq<string>)
  {
    forall i :: 0 <= i < |segments| ==> '/' !in segments[i]
  }

  /** Joining the segments of a path gives the path back, and no segment holds a slash. */
  lemma {:induction false} JoinSplit(s: string)
    ensures Join(Split(s)) == s && NoSlashes(Split(s))
    decreases |s|
  {
    var k := FirstSlash(s);
    assert s[..|s|] == s;
    if k < |s| {
      JoinSplit(s[k + 1..]);
      assert Split(s)[1..] == Split(s[k + 1..]);
      assert s == s[..k] + "/" + s[k + 1..];
    }
  }

  /** It is the only way to take the path apart. */
  lemma SplitFirst(first: string, tail: string)
    requires '/' !in first
    ensures Split(first + "/" + tail) == [first] + Split(tail)
  {
    var s, k := first + "/" + tail, |first|;
    assert s[..k] == first && s[k] == '/' && s[k + 1..] == tail;
    FirstSlashIs(s, k);
  }

  lemma {:induction false} SplitJoin(segments: seq<string>)
    requires segments != [] && NoSlashes(segments)
    ensures Split(Join(segments)) == segments
    decreases |segments|
  {
    var s, first := Join(segments), segments[0];
    if |segments| == 1 {
      assert s[..|s|] == s;
      FirstSlashIs(s, |s|);
    } else {
      var rest := segments[1..];
      SplitJoin(rest);
      SplitFirst(first, Join(rest));
      assert segments == [first] + rest;
    }
  }

  /** The last segment starts behind the last slash. */
  lemma {:induction false} LastSegment(s: string, p: nat)
    requires p <= |s| && '/' !in s[p..] && (p == 0 || s[p - 1] == '/')
    ensures Split(s)[|Split(s)| - 1] == s[p..]
    decreases |s|
  {
    var k := FirstSlash(s);
    Absent(s, '/', 0, k);
    Absent(s, '/', p, |s|);
    if p == 0 {
      assert s[0..] == s;
    } else {
      var rest := s[k + 1..];
      assert rest[p - (k + 1)..] == s[p..];
      assert p > k + 1 ==> rest[p - (k + 1) - 1] == s[p - 1];
      LastSegment(rest, p - (k + 1));
    }
  }

  // ----- strtok ----------------------------------------------------------------------------------

  /** strtok and its static cursor: `cursor` is an index into `text`, or -1 for NULL. */
  class Tokenizer {
    var text: array<char>
    var cursor: int

    ghost predicate Valid()
      reads this, text
    {
      cursor == -1 || (0 <= cursor < text.Length && Terminated(text[..]))
    }

    /** What is still to be handed out. */
    ghost function Rest(): Option<string>
      requires Valid()
      reads this, text
    {
      if cursor == -1 then None else Some(CStr(text[..], cursor))
    }

    constructor ()
      ensures Valid() && Rest() == None && fresh(text)
    {
      text := new char[0];
      cursor := -1;
    }

    /** strtok(str, "/"): a non-null `str` starts over. */
    method StrTok(str: array?<char>) returns (token: int)
      requires Valid() && (str != null ==> Terminated(str[..]))
      modifies this, text, str
      ensures Valid() && text == if str != null then str else old(text)
      ensures str == null && old(cursor) == -1 ==> token == -1 && cursor == -1 && text[..] == old(text[..])
      ensures str != null || old(cursor) != -1 ==>
        token == (if str != null then 0 else old(cursor)) && token < text.Length && Terminated(text[..])
        && HandsOut(if str != null then old(str[..]) else old(text[..]), text[..], token, cursor)
    {
      if str != null {
        text, cursor := str, 0;
      }
      if cursor == -1 {
        return -1;
      }
      token := cursor;
      token := Scan();
    }

    method Scan() returns (token: int)
      requires Valid() && cursor != -1
      modifies this`cursor, text
      ensures Valid() && token == old(cursor) && token < text.Length && Terminated(text[..])
      ensures HandsOut(old(text[..]), text[..], token, cursor)
    {
      token := cursor;
      ghost var m := text[..];
      Skip();
      assert text[..] == m;
      var next := cursor + 1;
      CutOrEnd(m, token, cursor, next);
      if text[cursor] == NUL {
        cursor := -1;
      } else {
        text[cursor] := NUL;
        assert text[..] == m[cursor := NUL];
        cursor := next;
      }
    }

    /** The cursor moves on to the next delimiter, or to the end of the string. */
    method Skip()
      requires Valid() && cursor != -1
      modifies this`cursor
      ensures Valid() && old(cursor) <= cursor < text.Length && (text[cursor] == NUL || text[cursor] == '/')
      ensures NUL !in text[old(cursor)..cursor] && '/' !in text[old(cursor)..cursor]
    {
      ghost var token := cursor;
      Slash();
      while text[cursor] != NUL
        invariant token <= cursor < text.Length
        invariant NUL !in text[token..cursor] && '/' !in text[token..cursor]
        decreases text.Length - cursor
      {
        var found := StrChr(['/', NUL], 0, text[cursor]);
        if found != -1 {
          return;
        }
        assert text[token..cursor + 1] == text[token..cursor] + [text[cursor]];
        cursor := cursor + 1;
      }
    }
  }

  lemma Slash()
    ensures Terminated(['/', NUL]) && CStr(['/', NUL], 0) == "/"
  {
    LenIs(['/', NUL], 0, 1);
  }

  lemma SlashOccurs(s: string)
    ensures forall i: nat :: OccursAt(s, "/", i) <==> i < |s| && s[i] == '/'
  {
    forall i: nat ensures OccursAt(s, "/", i) <==> i < |s| && s[i] == '/' {
      assert i < |s| ==> s[i..i + 1] == [s[i]];
    }
  }

  /** The token at `token` is the part before the first slash of the string that was there; what is
      behind that slash is left, and nothing before the token changed. */
  ghost predicate HandsOut(m: seq<char>, m': seq<char>, token: int, cursor: int)
  {
    && 0 <= token < |m| == |m'| && Terminated(m) && Terminated(m') && m'[..token] == m[..token]
    && var s := CStr(m, token);
      var k := FirstSlash(s);
      && CStr(m', token) == s[..k]
      && cursor == (if k == |s| then -1 else token + k + 1)
      && (k < |s| ==> cursor < |m| && CStr(m', cursor) == s[k + 1..])
  }

  lemma CutOrEnd(m: seq<char>, token: nat, c: nat, next: nat)
    requires next == c + 1 && Terminated(m) && token <= c < |m| && NUL !in m[token..c] && '/' !in m[token..c]
    ensures m[c] == NUL ==> HandsOut(m, m, token, -1)
    ensures m[c] == '/' ==> next < |m| && Terminated(m[c := NUL]) && HandsOut(m, m[c := NUL], token, next)
  {
    if m[c] == NUL {
      Uncut(m, token, c);
    } else if m[c] == '/' {
      Cut(m, token, c);
    }
  }

  lemma Cut(m: seq<char>, token: nat, c: nat)
    requires Terminated(m) && token <= c < |m| && m[c] == '/' && NUL !in m[token..c] && '/' !in m[token..c]
    ensures c + 1 < |m| && Terminated(m[c := NUL]) && HandsOut(m, m[c := NUL], token, c + 1)
  {
    var m', l, s := m[c := NUL], Len(m, token), CStr(m, token);
    Absent(m, NUL, token, c);
    assert s[..c - token] == m[token..c] == m'[token..c] && s[c - token] == m[c];
    FirstSlashIs(s, c - token);
    LenIs(m', token, c - token);
    var rest := token + l - (c + 1);
    assert m'[c + 1..c + 1 + rest] == s[c - token + 1..];
    LenIs(m', c + 1, rest);
    assert m'[..token] == m[..token];
  }

  lemma Uncut(m: seq<char>, token: nat, c: nat)
    requires Terminated(m) && token <= c < |m| && m[c] == NUL && NUL !in m[token..c] && '/' !in m[token..c]
    ensures HandsOut(m, m, token, -1)
  {
    LenIs(m, token, c - token);
    var s := CStr(m, token);
    assert s[..|s|] == s;
    FirstSlashIs(s, |s|);
  }

  /** vfs_parse_path: copy the path, then collect the tokens. */
  method ParsePath(strtok: Tokenizer, path: string) returns (segments: seq<string>)
    requires strtok.Valid() && NUL !in path
    modifies strtok, strtok.text
    ensures strtok.Valid() && fresh(strtok.text) && segments == Split(path)
  {
    var copy := StrDup(path);
    ghost var m := copy[..];
    var token := strtok.StrTok(copy);
    TokenOf(m, copy[..], token, strtok.cursor, path);
    segments := [];
    ghost var left := Some(path);
    while token != -1
      invariant strtok.Valid() && strtok.text == copy && Pending(copy[..], token, strtok.cursor, left)
      invariant Collected(path, segments, left)
      decreases if left == None then 0 else |left.value| + 1
    {
      CollectOne(path, segments, left.value);
      segments := segments + [CStr(copy[..], token)];
      m := copy[..];
      token := strtok.StrTok(null);
      left := Behind(left.value);
      if left.Some? {
        TokenOf(m, copy[..], token, strtok.cursor, left.value);
      }
    }
    assert segments + [] == segments;
  }

  /** The token just handed out is the first segment of `left`; the cursor stands behind it. */
  ghost predicate Pending(m: seq<char>, token: int, cursor: int, left: Option<string>)
  {
    match left
    case None => token == -1 && cursor == -1
    case Some(s) =>
      && 0 <= token < |m| && Terminated(m) && CStr(m, token) == s[..FirstSlash(s)]
      && (cursor == -1 <==> Behind(s) == None)
      && (cursor != -1 ==> 0 <= cursor < |m| && CStr(m, cursor) == Behind(s).value)
  }

  lemma TokenOf(m: seq<char>, m': seq<char>, token: int, cursor: int, s: string)
    requires HandsOut(m, m', token, cursor) && CStr(m, token) == s
    ensures Pending(m', token, cursor, Some(s))
  {
  }

  function SplitRest(left: Option<string>): seq<string>
  {
    if left == None then [] else Split(left.value)
  }

  /** The segments so far, and those still to come, are all segments of the path. */
  ghost predicate Collected(path: string, segments: seq<string>, left: Option<string>)
  {
    Split(path) == segments + SplitRest(left)
  }

  lemma Regrouped<T>(a: seq<T>, b: seq<T>, c: seq<T>)
    ensures a + (b + c) == a + b + c
  {
  }

  lemma CollectOne(path: string, segments: seq<string>, s: string)
    requires Collected(path, segments, Some(s))
    ensures Collected(path, segments + [s[..FirstSlash(s)]], Behind(s))
    ensures Behind(s).Some? ==> |Behind(s).value| < |s|
  {
    assert FirstSlash(s) == |s| ==> s[..|s|] == s;
    var head := [s[..FirstSlash(s)]];
    assert Split(s) == head + SplitRest(Behind(s));
    Regrouped(segments, head, SplitRest(Behind(s)));
  }

  function Behind(s: string): Option<string>
  {
    if FirstSlash(s) == |s| then None else Some(s[FirstSlash(s) + 1..])
  }

  /** strdup. */
  method StrDup(s: string) returns (copy: array<char>)
    requires NUL !in s
    ensures fresh(copy) && Terminated(copy[..]) && CStr(copy[..], 0) == s
  {
    copy := new char[|s| + 1];
    for i := 0 to |s|
      invariant copy[..i] == s[..i]
    {
      copy[i] := s[i];
    }
    copy[|s|] := NUL;
    assert copy[..][0..0 + |s|] == s;
    LenIs(copy[..], 0, |s|);
  }

  // ----- basename and dirname --------------------------------------------------------------------

  /** basename: an index into `path`.  For an absolute path longer than "/" it is the last segment;
      a relative path is returned whole, slashes and all. */
  method Basename(m: seq<char>) returns (p: nat)
    requires Terminated(m)
    ensures p <= |CStr(m, 0)| && CStr(m, p) == CStr(m, 0)[p..]
    ensures var s := CStr(m, 0); if s == [] || s[0] != '/' || s == "/" then p == 0
      else CStr(m, p) == Split(s)[|Split(s)| - 1]
  {
    p := 0;
    if m[0] != '/' {
      return;
    }
    var n := StrLen(m, 0);
    if n == 1 {
      return;
    }
    ghost var s := CStr(m, 0);
    var ssc := FindSlash(m, p);
    while ssc != -1
      invariant p <= |s| && CStr(m, p) == s[p..] && (p > 0 ==> s[p - 1] == '/') && (ssc == -1 ==> p > 0)
      invariant ssc == -1 ==> '/' !in s[p..]
      invariant ssc != -1 ==> p <= ssc < |s| && m[ssc] == '/' && CStr(m, ssc) == s[ssc..]
      decreases |s| - p, ssc
    {
      var whole := StrLen(m, p);
      var tail := StrLen(m, ssc);
      p := p + whole - (tail + 1) + 2;
      Suffix(m, p);
      ssc := FindSlash(m, p);
    }
    LastSegment(s, p);
  }

  /** strstr(path, "/"). */
  method FindSlash(m: seq<char>, p: nat) returns (r: int)
    requires Terminated(m) && p <= |CStr(m, 0)|
    ensures CStr(m, p) == CStr(m, 0)[p..]
    ensures '/' !in CStr(m, 0)[p..] ==> r == -1
    ensures '/' in CStr(m, 0)[p..] ==> p <= r < |CStr(m, 0)| && m[r] == '/' && CStr(m, r) == CStr(m, 0)[r..]
  {
    Suffix(m, p);
    ghost var s := CStr(m, 0)[p..];
    Slash();
    SlashOccurs(s);
    r := StrStr(m, p, ['/', NUL]);
    if r == -1 {
      assert forall i: nat :: i < |s| ==> !OccursAt(s, "/", i);
    } else {
      assert OccursAt(s, "/", r - p);
      Suffix(m, r);
    }
  }

  lemma Suffix(m: seq<char>, p: nat)
    requires Terminated(m) && p <= |CStr(m, 0)|
    ensures p < |m| && CStr(m, p) == CStr(m, 0)[p..]
  {
    var n := Len(m, 0);
    assert m[p..p + (n - p)] == m[0..n][p..];
    LenIs(m, p, n - p);
  }

  /** Index of the last slash, 0 when there is none. */
  function LastSlash(s: string): (j: nat)
    ensures j <= |s|
  {
    if s == [] then 0 else if s[|s| - 1] == '/' then |s| - 1 else LastSlash(s[..|s| - 1])
  }

  /** dirname. */
  method Dirname(m: seq<char>) returns (dir: string)
    requires Terminated(m)
    ensures var s := CStr(m, 0); dir == if LastSlash(s) == 0 then "/" else s[..LastSlash(s)]
  {
    var i, j := 0, 0;
    ghost var s := CStr(m, 0);
    while m[i] != NUL
      invariant i <= |s| && j == LastSlash(s[..i]) <= i
      decreases |s| - i
    {
      assert m[i] == s[i] && s[..i + 1][..i] == s[..i];
      if m[i] == '/' {
        j := i;
      }
      i := i + 1;
    }
    assert i == |s| && s[..i] == s;
    if j == 0 {
      dir := "/";
    } else {
      dir := "";
      for k := 0 to j
        invariant dir == s[..k]
      {
        dir := dir + [m[k]];
      }
    }
  }

  /** The directory and the last segment of an absolute path make up the path. */
  lemma {:induction false} DirectoryAndBase(s: string)
    requires |s| > 1 && s[0] == '/'
    ensures LastSlash(s) < |s| && Split(s)[|Split(s)| - 1] == s[LastSlash(s) + 1..]
    ensures var j := LastSlash(s); s == (if j == 0 then "" else s[..j]) + "/" + s[j + 1..]
  {
    LastSlashIs(s);
    LastSegment(s, LastSlash(s) + 1);
  }

  lemma {:induction false} LastSlashIs(s: string)
    requires s != [] && s[0] == '/'
    ensures LastSlash(s) < |s| && s[LastSlash(s)] == '/' && '/' !in s[LastSlash(s) + 1..]
  {
    if s[|s| - 1] != '/' {
      var init := s[..|s| - 1];
      LastSlashIs(init);
      assert s[LastSlash(s) + 1..] == init[LastSlash(s) + 1..] + [s[|s| - 1]];
    }
  }
}
