/** The part of Go's `strings` package (and `unicode.IsSpace`) that the
    hub client relies on, over Dafny strings (sequences of Unicode scalar
    values).  Only single-character separators and cutsets are needed. */
module GoStrings {

  /** strings.HasPrefix */
  predicate HasPrefix(s: string, prefix: string) {
    |prefix| <= |s| && s[..|prefix|] == prefix
  }

  /** strings.TrimPrefix: drops `prefix` once when `s` starts with it. */
  function TrimPrefix(s: string, prefix: string): (r: string)
    ensures HasPrefix(s, prefix) ==> s == prefix + r
    ensures !HasPrefix(s, prefix) ==> r == s
  {
    if HasPrefix(s, prefix) then s[|prefix|..] else s
  }

  /** Position of the first `c` in `s`, or |s| when there is none. */
  function IndexOf(s: string, c: char): (i: nat)
    ensures i <= |s|
    ensures i < |s| ==> s[i] == c
    ensures c !in s[..i]
  {
    if |s| == 0 then 0
    else if s[0] == c then 0
    else 1 + IndexOf(s[1..], c)
  }

  /** strings.Split with a one-character separator: the pieces between
      separators, always at least one (Split("", ",") is [""]). */
  function Split(s: string, c: char): (r: seq<string>)
    ensures |r| >= 1
    ensures forall k :: 0 <= k < |r| ==> c !in r[k]
    decreases |s|
  {
    var i := IndexOf(s, c);
    if i == |s| then [s] else [s[..i]] + Split(s[i + 1..], c)
  }

  /** The first piece of a split is the text before the first separator;
      there is a second piece exactly when there is a separator, and the
      rest of the pieces are the split of the text after it. */
  lemma SplitHead(s: string, c: char)
    ensures Split(s, c)[0] == s[..IndexOf(s, c)]
    ensures |Split(s, c)| >= 2 <==> IndexOf(s, c) < |s|
    ensures IndexOf(s, c) < |s| ==> Split(s, c)[1..] == Split(s[IndexOf(s, c) + 1..], c)
  {
    var i := IndexOf(s, c);
    var r := Split(s, c);
    if i == |s| {
      assert r == [s];
      assert s[..i] == s;
    } else {
      var tail := Split(s[i + 1..], c);
      assert r == [s[..i]] + tail;
      assert r[0] == s[..i];
      assert r[1..] == tail;
    }
  }

  /** strings.Join */
  function Join(parts: seq<string>, sep: string): string
    decreases |parts|
  {
    if |parts| == 0 then ""
    else if |parts| == 1 then parts[0]
    else parts[0] + sep + Join(parts[1..], sep)
  }

  /** `pad` put in front of every part. */
  function Padded(pad: string, parts: seq<string>): (r: seq<string>)
    ensures |r| == |parts|
    ensures forall k :: 0 <= k < |r| ==> r[k] == pad + parts[k]
  {
    if |parts| == 0 then [] else [pad + parts[0]] + Padded(pad, parts[1..])
  }

  /** Splitting is undone by joining with the same separator. */
  lemma {:induction false} JoinSplit(s: string, c: char)
    ensures Join(Split(s, c), [c]) == s
    decreases |s|
  {
    var i := IndexOf(s, c);
    if i < |s| {
      var rest := s[i + 1..];
      var tail := Split(rest, c);
      var pieces := [s[..i]] + tail;
      assert Split(s, c) == pieces;
      assert pieces[0] == s[..i] && pieces[1..] == tail;
      assert Join(pieces, [c]) == s[..i] + [c] + Join(tail, [c]);
      JoinSplit(rest, c);
      assert s == s[..i] + [c] + rest;
    } else {
      assert Split(s, c) == [s];
    }
  }

  /** Splitting a joined list on the separator's first character gives
      the parts back, the later ones with the rest of the separator in
      front; `q` is text already in front of the first part. */
  lemma {:induction false} SplitJoin(q: string, parts: seq<string>, c: char, pad: string)
    requires |parts| >= 1
    requires c !in q && c !in pad
    requires forall k :: 0 <= k < |parts| ==> c !in parts[k]
    ensures Split(q + Join(parts, [c] + pad), c) == [q + parts[0]] + Padded(pad, parts[1..])
    decreases |parts|
  {
    var sep := [c] + pad;
    var head := q + parts[0];
    assert c !in head by {
      forall k | 0 <= k < |head| ensures head[k] != c {
        if k < |q| { assert head[k] == q[k]; } else { assert head[k] == parts[0][k - |q|]; }
      }
    }
    if |parts| == 1 {
      assert q + Join(parts, sep) == head;
      IndexOfAfterFree(head, [], c);
      assert head + [] == head;
    } else {
      var tail := Join(parts[1..], sep);
      assert Join(parts, sep) == parts[0] + sep + tail;
      assert q + Join(parts, sep) == head + ([c] + (pad + tail));
      SplitAfterFree(head, pad + tail, c);
      SplitJoin(pad, parts[1..], c, pad);
      assert parts[1..][1..] == parts[2..];
    }
  }

  /** Split cuts at the first separator after a separator-free prefix. */
  lemma SplitAfterFree(head: string, rest: string, c: char)
    requires c !in head
    ensures Split(head + ([c] + rest), c) == [head] + Split(rest, c)
  {
    var s := head + ([c] + rest);
    IndexOfAfterFree(head, [c] + rest, c);
    assert IndexOf(s, c) == |head|;
    assert s[..|head|] == head;
    assert s[|head| + 1..] == rest;
  }

  /** A prefix free of `c` is skipped by IndexOf. */
  lemma {:induction false} IndexOfAfterFree(a: string, b: string, c: char)
    requires c !in a
    ensures IndexOf(a + b, c) == |a| + IndexOf(b, c)
    decreases |a|
  {
    if |a| > 0 {
      assert (a + b)[0] == a[0] && a[0] != c;
      assert (a + b)[1..] == a[1..] + b;
      assert c !in a[1..] by {
        forall k | 0 <= k < |a[1..]| ensures a[1..][k] != c { assert a[1..][k] == a[k + 1]; }
      }
      IndexOfAfterFree(a[1..], b, c);
    } else {
      assert a + b == b;
    }
  }

  /** unicode.IsSpace: the Latin-1 spaces and the other characters with
      Unicode's White_Space property. */
  predicate IsSpace(c: char) {
    c == ' ' || c == '\t' || c == '\n' || c == '\U{000B}' || c == '\U{000C}' || c == '\r'
    || c == '\U{0085}' || c == '\U{00A0}' || c == '\U{1680}'
    || ('\U{2000}' <= c <= '\U{200A}')
    || c == '\U{2028}' || c == '\U{2029}' || c == '\U{202F}' || c == '\U{205F}' || c == '\U{3000}'
  }

  function TrimLeftSpace(s: string): (r: string)
    ensures |r| <= |s| && r == s[|s| - |r|..]
    ensures r == [] || !IsSpace(r[0])
  {
    if |s| > 0 && IsSpace(s[0]) then TrimLeftSpace(s[1..]) else s
  }

  function TrimRightSpace(s: string): (r: string)
    ensures |r| <= |s| && r == s[..|r|]
    ensures r == [] || !IsSpace(r[|r| - 1])
  {
    if |s| > 0 && IsSpace(s[|s| - 1]) then TrimRightSpace(s[..|s| - 1]) else s
  }

  /** strings.TrimSpace */
  function TrimSpace(s: string): (r: string)
    ensures r == [] || (!IsSpace(r[0]) && !IsSpace(r[|r| - 1]))
  {
    TrimRightSpace(TrimLeftSpace(s))
  }

  /** Everything TrimLeftSpace drops is white space. */
  lemma {:induction false} LeadingSpaces(s: string)
    ensures forall k :: 0 <= k < |s| - |TrimLeftSpace(s)| ==> IsSpace(s[k])
    decreases |s|
  {
    if |s| > 0 && IsSpace(s[0]) {
      LeadingSpaces(s[1..]);
      forall k | 1 <= k < |s| - |TrimLeftSpace(s)| ensures IsSpace(s[k]) {
        assert s[k] == s[1..][k - 1];
      }
    }
  }

  /** Everything TrimRightSpace drops is white space. */
  lemma {:induction false} TrailingSpaces(s: string)
    ensures forall k :: |TrimRightSpace(s)| <= k < |s| ==> IsSpace(s[k])
    decreases |s|
  {
    if |s| > 0 && IsSpace(s[|s| - 1]) {
      TrailingSpaces(s[..|s| - 1]);
      forall k | |TrimRightSpace(s)| <= k < |s| - 1 ensures IsSpace(s[k]) {
        assert s[k] == s[..|s| - 1][k];
      }
    }
  }

  /** TrimSpace keeps the infix of `s` between its leading and its
      trailing run of white space. */
  lemma TrimSpaceInfix(s: string)
    ensures var i := |s| - |TrimLeftSpace(s)|; var j := i + |TrimSpace(s)|;
      && j <= |s| && TrimSpace(s) == s[i..j]
      && (forall k :: 0 <= k < i ==> IsSpace(s[k]))
      && (forall k :: j <= k < |s| ==> IsSpace(s[k]))
  {
    LeadingSpaces(s);
    TrimSpaceSlice(s);
    TrimSpaceTrailing(s);
  }

  lemma TrimSpaceSlice(s: string)
    ensures var i := |s| - |TrimLeftSpace(s)|;
      i + |TrimSpace(s)| <= |s| && TrimSpace(s) == s[i..i + |TrimSpace(s)|]
  {
    var l := TrimLeftSpace(s);
    var r := TrimRightSpace(l);
    assert TrimSpace(s) == r;
    PrefixOfSuffix(s, l, r);
  }

  lemma TrimSpaceTrailing(s: string)
    ensures forall k :: |s| - |TrimLeftSpace(s)| + |TrimSpace(s)| <= k < |s| ==> IsSpace(s[k])
  {
    var l := TrimLeftSpace(s);
    var r := TrimRightSpace(l);
    assert TrimSpace(s) == r;
    TrailingSpaces(l);
    TrimmedSuffix(s, l, r, IsSpace);
  }

  /** A prefix `r` of a suffix `l` of `s` is an infix of `s`. */
  lemma PrefixOfSuffix(s: string, l: string, r: string)
    requires |l| <= |s| && l == s[|s| - |l|..]
    requires |r| <= |l| && r == l[..|r|]
    ensures r == s[|s| - |l|..|s| - |l| + |r|]
  {
    var i := |s| - |l|;
    forall k | 0 <= k < |r| ensures r[k] == s[i + k] {
      assert r[k] == l[k];
    }
  }

  /** What follows a prefix `r` of a suffix `l` of `s` in `l` follows it
      in `s`. */
  lemma TrimmedSuffix(s: string, l: string, r: string, dropped: char -> bool)
    requires |l| <= |s| && l == s[|s| - |l|..]
    requires |r| <= |l| && r == l[..|r|]
    requires forall k :: |r| <= k < |l| ==> dropped(l[k])
    ensures forall k :: |s| - |l| + |r| <= k < |s| ==> dropped(s[k])
  {
    var i := |s| - |l|;
    forall k | i + |r| <= k < |s| ensures dropped(s[k]) {
      assert s[k] == l[k - i];
    }
  }

  /** A string with no space at either end is left alone by TrimSpace,
      and so is one with extra spaces in front of it. */
  lemma {:induction false} TrimSpaceOfPadded(pad: string, s: string)
    requires forall k :: 0 <= k < |pad| ==> IsSpace(pad[k])
    requires s == [] || (!IsSpace(s[0]) && !IsSpace(s[|s| - 1]))
    ensures TrimSpace(pad + s) == s
    decreases |pad|
  {
    if |pad| > 0 {
      assert (pad + s)[1..] == pad[1..] + s;
      TrimSpaceOfPadded(pad[1..], s);
    } else {
      assert pad + s == s;
    }
  }

  function TrimLeftChar(s: string, c: char): (r: string)
    ensures |r| <= |s| && r == s[|s| - |r|..]
    ensures forall k :: 0 <= k < |s| - |r| ==> s[k] == c
    ensures r == [] || r[0] != c
  {
    if |s| > 0 && s[0] == c then TrimLeftChar(s[1..], c) else s
  }

  function TrimRightChar(s: string, c: char): (r: string)
    ensures |r| <= |s| && r == s[..|r|]
    ensures forall k :: |r| <= k < |s| ==> s[k] == c
    ensures r == [] || r[|r| - 1] != c
  {
    if |s| > 0 && s[|s| - 1] == c then TrimRightChar(s[..|s| - 1], c) else s
  }

  /** strings.Trim with a one-character cutset: every leading and every
      trailing `c` goes. */
  function Trim(s: string, c: char): (r: string)
    ensures r == [] || (r[0] != c && r[|r| - 1] != c)
  {
    TrimRightChar(TrimLeftChar(s, c), c)
  }

  /** Trim keeps the infix of `s` between its leading and its trailing
      run of `c`. */
  lemma TrimInfix(s: string, c: char)
    ensures var i := |s| - |TrimLeftChar(s, c)|; var j := i + |Trim(s, c)|;
      && j <= |s| && Trim(s, c) == s[i..j]
      && (forall k :: 0 <= k < i ==> s[k] == c)
      && (forall k :: j <= k < |s| ==> s[k] == c)
  {
    TrimSlice(s, c);
    TrimTrailing(s, c);
  }

  lemma TrimSlice(s: string, c: char)
    ensures var i := |s| - |TrimLeftChar(s, c)|;
      i + |Trim(s, c)| <= |s| && Trim(s, c) == s[i..i + |Trim(s, c)|]
  {
    var l := TrimLeftChar(s, c);
    var r := TrimRightChar(l, c);
    assert Trim(s, c) == r;
    PrefixOfSuffix(s, l, r);
  }

  lemma TrimTrailing(s: string, c: char)
    ensures forall k :: |s| - |TrimLeftChar(s, c)| + |Trim(s, c)| <= k < |s| ==> s[k] == c
  {
    var l := TrimLeftChar(s, c);
    var r := TrimRightChar(l, c);
    assert Trim(s, c) == r;
    TrimmedSuffix(s, l, r, k => k == c);
  }

  /** Trimming the quotes off a quoted string without quotes inside gives
      that string back. */
  lemma TrimQuoted(v: string, c: char)
    requires c !in v
    ensures Trim([c] + v + [c], c) == v
  {
    var w := [c] + v + [c];
    assert w[1..] == v + [c];
    if |v| == 0 {
      assert w == [c, c];
      assert TrimLeftChar(w, c) == TrimLeftChar([c], c);
      assert [c][1..] == [];
    } else {
      assert (v + [c])[0] == v[0];
      assert TrimLeftChar(v + [c], c) == v + [c];
      assert (v + [c])[..|v|] == v;
      assert TrimRightChar(v, c) == v;
    }
  }
}
