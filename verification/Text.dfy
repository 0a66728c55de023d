/** The string operations the file-name parser uses, on ASCII text, and when they split where. */
module Text {

  /** Lower-casing of ASCII letters. */
  function LowerChar(c: char): char {
    if 'A' <= c <= 'Z' then (c as int - 'A' as int + 'a' as int) as char else c
  }

  function Lower(s: string): (r: string)
    ensures |r| == |s| && forall i :: 0 <= i < |s| ==> r[i] == LowerChar(s[i])
  {
    seq(|s|, i requires 0 <= i < |s| => LowerChar(s[i]))
  }

  predicate EndsWith(s: string, suffix: string) {
    |suffix| <= |s| && s[|s| - |suffix|..] == suffix
  }

  predicate OccursAt(s: string, pat: string, i: nat) {
    i + |pat| <= |s| && s[i..i + |pat|] == pat
  }

  predicate Contains(s: string, pat: string) {
    exists i :: 0 <= i <= |s| && OccursAt(s, pat, i)
  }

  /** Replaces the occurrences found from the left without overlap. */
  function Replace(s: string, pat: string, rep: string): string
    requires pat != ""
  {
    if |s| < |pat| then s
    else if OccursAt(s, pat, 0) then rep + Replace(s[|pat|..], pat, rep)
    else [s[0]] + Replace(s[1..], pat, rep)
  }

  /** The pieces between the separators found from the left without overlap. */
  function Split(s: string, sep: string): (r: seq<string>)
    requires sep != ""
    ensures r != []
  {
    if |s| < |sep| then [s]
    else if OccursAt(s, sep, 0) then [""] + Split(s[|sep|..], sep)
    else
      var rest := Split(s[1..], sep);
      [[s[0]] + rest[0]] + rest[1..]
  }

  predicate IsSpace(c: char) { c == ' ' || '\t' <= c <= '\r' }

  /** The ASCII blanks: tab, line feed, vertical tab, form feed, carriage return and space. */
  lemma BlanksExact(c: char)
    ensures IsSpace(c) <==> c as int in {9, 10, 11, 12, 13, 32}
  {
  }

  function TrimStart(s: string): string {
    if s != "" && IsSpace(s[0]) then TrimStart(s[1..]) else s
  }

  function TrimEnd(s: string): string {
    if s != "" && IsSpace(s[|s| - 1]) then TrimEnd(s[..|s| - 1]) else s
  }

  function Trim(s: string): string { TrimStart(TrimEnd(s)) }

  function Reverse(s: string): (r: string)
    ensures |r| == |s| && forall i :: 0 <= i < |s| ==> r[i] == s[|s| - 1 - i]
  {
    seq(|s|, i requires 0 <= i < |s| => s[|s| - 1 - i])
  }

  // ----- Where the operations act -----

  lemma {:induction false} SplitAt(a: string, sep: string, b: string)
    requires sep != "" && forall i :: 0 <= i < |a| ==> !OccursAt(a + sep + b, sep, i)
    ensures Split(a + sep + b, sep) == [a] + Split(b, sep)
  {
    var s := a + sep + b;
    if a == "" {
      assert s == sep + b;
      assert s[|sep|..] == b;
    } else {
      Tail(a, sep, b);
      SplitAt(a[1..], sep, b);
      assert !OccursAt(s, sep, 0);
      assert s[1..] == a[1..] + sep + b;
      assert [a[0]] + a[1..] == a;
    }
  }

  lemma {:induction false} SplitNone(s: string, sep: string)
    requires sep != "" && forall i :: 0 <= i <= |s| ==> !OccursAt(s, sep, i)
    ensures Split(s, sep) == [s]
  {
    if |s| >= |sep| {
      Shift(s, sep);
      SplitNone(s[1..], sep);
      assert !OccursAt(s, sep, 0);
      assert [s[0]] + s[1..] == s;
    }
  }

  lemma {:induction false} ReplaceAt(a: string, pat: string, b: string, rep: string)
    requires pat != "" && forall i :: 0 <= i < |a| ==> !OccursAt(a + pat + b, pat, i)
    ensures Replace(a + pat + b, pat, rep) == a + rep + Replace(b, pat, rep)
  {
    if a == "" {
      assert a + pat + b == pat + b;
      ReplaceHead(pat, b, rep);
      assert rep + Replace(b, pat, rep) == a + rep + Replace(b, pat, rep);
    } else {
      Tail(a, pat, b);
      ReplaceAt(a[1..], pat, b, rep);
      Prepend(a, pat, b);
      ReplaceStep(a + pat + b, pat, rep, a[1..] + rep + Replace(b, pat, rep));
      Prepend(a, rep, Replace(b, pat, rep));
    }
  }

  lemma Prepend(a: string, m: string, t: string)
    requires a != ""
    ensures (a + m + t)[0] == a[0] && (a + m + t)[1..] == a[1..] + m + t && [a[0]] + (a[1..] + m + t) == a + m + t
  {
    assert [a[0]] + a[1..] == a;
  }

  lemma ReplaceHead(pat: string, b: string, rep: string)
    requires pat != ""
    ensures Replace(pat + b, pat, rep) == rep + Replace(b, pat, rep)
  {
    assert (pat + b)[|pat|..] == b;
  }

  lemma ReplaceStep(s: string, pat: string, rep: string, rest: string)
    requires pat != "" && |s| >= |pat| && !OccursAt(s, pat, 0) && Replace(s[1..], pat, rep) == rest
    ensures Replace(s, pat, rep) == [s[0]] + rest
  {
  }

  lemma Tail(a: string, pat: string, b: string)
    requires a != "" && forall i :: 0 <= i < |a| ==> !OccursAt(a + pat + b, pat, i)
    ensures forall i :: 0 <= i < |a[1..]| ==> !OccursAt(a[1..] + pat + b, pat, i)
  {
    var s := a + pat + b;
    assert s[1..] == a[1..] + pat + b;
    forall i | 0 <= i < |a[1..]|
      ensures !OccursAt(s[1..], pat, i)
    {
      assert !OccursAt(s, pat, i + 1);
      assert i + 1 + |pat| <= |s| ==> s[1..][i..i + |pat|] == s[i + 1..i + 1 + |pat|];
    }
  }

  lemma {:induction false} ReplaceNone(s: string, pat: string, rep: string)
    requires pat != "" && forall i :: 0 <= i <= |s| ==> !OccursAt(s, pat, i)
    ensures Replace(s, pat, rep) == s
  {
    if |s| >= |pat| {
      Shift(s, pat);
      ReplaceNone(s[1..], pat, rep);
      assert !OccursAt(s, pat, 0);
      assert [s[0]] + s[1..] == s;
    }
  }

  lemma Shift(s: string, pat: string)
    requires s != "" && forall i :: 0 <= i <= |s| ==> !OccursAt(s, pat, i)
    ensures forall i :: 0 <= i <= |s[1..]| ==> !OccursAt(s[1..], pat, i)
  {
    forall i | 0 <= i <= |s[1..]|
      ensures !OccursAt(s[1..], pat, i)
    {
      assert !OccursAt(s, pat, i + 1);
      assert i + 1 + |pat| <= |s| ==> s[1..][i..i + |pat|] == s[i + 1..i + 1 + |pat|];
    }
  }

  /** An occurrence puts the pattern's characters one by one into the text. */
  lemma OccursChar(s: string, pat: string, i: nat, k: nat)
    requires OccursAt(s, pat, i) && k < |pat|
    ensures s[i + k] == pat[k]
  {
    assert s[i..i + |pat|][k] == pat[k];
  }

  lemma {:induction false} TrimTail(s: string, spaces: string)
    requires s != "" && !IsSpace(s[0]) && !IsSpace(s[|s| - 1])
    requires forall i :: 0 <= i < |spaces| ==> IsSpace(spaces[i])
    ensures Trim(s + spaces) == s
  {
    if spaces == "" {
      assert s + spaces == s;
    } else {
      assert (s + spaces)[..|s + spaces| - 1] == s + spaces[..|spaces| - 1];
      TrimTail(s, spaces[..|spaces| - 1]);
    }
  }

  /** Trimming never removes a character that is not a blank. */
  lemma TrimKeeps(s: string, i: nat) returns (k: nat)
    requires i < |s| && !IsSpace(s[i])
    ensures k < |Trim(s)| && Trim(s)[k] == s[i]
  {
    k := TrimEndKeeps(s, i);
    k := TrimStartKeeps(TrimEnd(s), k);
  }

  lemma {:induction false} TrimEndKeeps(s: string, i: nat) returns (k: nat)
    requires i < |s| && !IsSpace(s[i])
    ensures k < |TrimEnd(s)| && TrimEnd(s)[k] == s[i]
  {
    if IsSpace(s[|s| - 1]) {
      k := TrimEndKeeps(s[..|s| - 1], i);
    } else {
      k := i;
    }
  }

  lemma {:induction false} TrimStartKeeps(s: string, i: nat) returns (k: nat)
    requires i < |s| && !IsSpace(s[i])
    ensures k < |TrimStart(s)| && TrimStart(s)[k] == s[i]
  {
    if IsSpace(s[0]) {
      k := TrimStartKeeps(s[1..], i - 1);
    } else {
      k := i;
    }
  }

  lemma Untrimmed(s: string)
    requires s != "" && !IsSpace(s[0]) && !IsSpace(s[|s| - 1])
    ensures Trim(s) == s
  {
    TrimTail(s, "");
    assert s + "" == s;
  }

  /** A one-character separator that is absent splits nothing. */
  lemma Absent(s: string, c: char)
    requires c !in s
    ensures !Contains(s, [c])
  {
    forall i | 0 <= i <= |s|
      ensures !OccursAt(s, [c], i)
    {
      if OccursAt(s, [c], i) {
        OccursChar(s, [c], i, 0);
      }
    }
  }

  lemma SplitAtChar(a: string, c: char, b: string)
    requires c !in a
    ensures Contains(a + [c] + b, [c]) && Split(a + [c] + b, [c]) == [a] + Split(b, [c])
  {
    var s := a + [c] + b;
    assert OccursAt(s, [c], |a|);
    forall i | 0 <= i < |a|
      ensures !OccursAt(s, [c], i)
    {
      if OccursAt(s, [c], i) {
        OccursChar(s, [c], i, 0);
      }
    }
    SplitAt(a, [c], b);
  }

  lemma ReverseConcat(a: string, b: string)
    ensures Reverse(a + b) == Reverse(b) + Reverse(a)
  {
  }

  lemma ReverseTwice(s: string)
    ensures Reverse(Reverse(s)) == s
  {
  }

  // ----- Joining with a separator, and splitting at it -----

  function JoinWith(pieces: seq<string>, c: char): string
    requires pieces != []
  {
    if |pieces| == 1 then pieces[0] else pieces[0] + [c] + JoinWith(pieces[1..], c)
  }

  lemma {:induction false} SplitJoin(pieces: seq<string>, c: char)
    requires pieces != [] && forall i :: 0 <= i < |pieces| ==> c !in pieces[i]
    ensures Split(JoinWith(pieces, c), [c]) == pieces
  {
    if |pieces| == 1 {
      Absent(pieces[0], c);
      SplitNone(pieces[0], [c]);
    } else {
      SplitJoin(pieces[1..], c);
      SplitAtChar(pieces[0], c, JoinWith(pieces[1..], c));
    }
  }

  /** The first piece is the beginning of the whole. */
  lemma JoinFirst(pieces: seq<string>, c: char)
    requires pieces != []
    ensures pieces[0] <= JoinWith(pieces, c)
  {
  }

  /** The last piece is the end of the whole. */
  lemma {:induction false} JoinLast(pieces: seq<string>, x: string, r: string, c: char)
    ensures JoinWith(pieces + [x + r], c) == JoinWith(pieces + [x], c) + r
  {
    if pieces != [] {
      JoinLast(pieces[1..], x, r, c);
      assert (pieces + [x + r])[1..] == pieces[1..] + [x + r];
      assert (pieces + [x])[1..] == pieces[1..] + [x];
    }
  }

  // ----- Trimming -----

  /** Blanks around text that neither begins nor ends with one are what is trimmed. */
  lemma {:induction false} TrimExact(a: string, s: string, b: string)
    requires s != "" && !IsSpace(s[0]) && !IsSpace(s[|s| - 1])
    requires (forall i :: 0 <= i < |a| ==> IsSpace(a[i])) && (forall i :: 0 <= i < |b| ==> IsSpace(b[i]))
    ensures Trim(a + s + b) == s
  {
    TrimEndOf(a + s, b);
    assert a + s + b == (a + s) + b;
    TrimStartOf(a, s);
  }

  lemma {:induction false} TrimEndOf(s: string, b: string)
    requires s != "" && !IsSpace(s[|s| - 1]) && forall i :: 0 <= i < |b| ==> IsSpace(b[i])
    ensures TrimEnd(s + b) == s
  {
    if b == "" {
      assert s + b == s;
    } else {
      assert (s + b)[..|s + b| - 1] == s + b[..|b| - 1];
      TrimEndOf(s, b[..|b| - 1]);
    }
  }

  lemma {:induction false} TrimStartOf(a: string, s: string)
    requires s != "" && !IsSpace(s[0]) && forall i :: 0 <= i < |a| ==> IsSpace(a[i])
    ensures TrimStart(a + s) == s
  {
    if a == "" {
      assert a + s == s;
    } else {
      assert (a + s)[1..] == a[1..] + s;
      TrimStartOf(a[1..], s);
    }
  }
}
