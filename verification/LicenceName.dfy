/**
 Licence file names: the printer (`gen_name`) and the parser (`get_custom_server_from_string`).

 The JSON codec and the signature check are parameters; what is assumed of them is `Lawful`.
 */
module LicenceName {
  import opened Options
  import opened Text
  import opened Base64Url

  datatype CustomServer = CustomServer(key: string, host: string, api: string, relay: string)

  datatype Codec = Codec(
    toJson: CustomServer -> seq<Byte>,
    fromJson: seq<Byte> -> Option<CustomServer>,
    verify: seq<Byte> -> Option<seq<Byte>>)

  // ----- The printer and the parser -----

  function GenName(codec: Codec, lic: CustomServer): string {
    Reverse(Encode(codec.toJson(lic)))
  }

  function FromConfigString(codec: Codec, s: string): Option<CustomServer> {
    var tmp := Reverse(s);
    var data := if Decode(tmp).Some? then Decode(tmp) else DecodePadded(tmp);
    if data.None? then None
    else if codec.fromJson(data.value).Some? then codec.fromJson(data.value)
    else if codec.verify(data.value).Some? then codec.fromJson(codec.verify(data.value).value)
    else None
  }

  /** The name without its `.exe`, written once or twice in any case. */
  function Stem(s: string): string {
    if EndsWith(Lower(s), ".exe.exe") then s[..|s| - 8]
    else if EndsWith(Lower(s), ".exe") then s[..|s| - 4]
    else s
  }

  function Normalized(s: string): string {
    Replace(Replace(Replace(s, "-licensed---", "--"), "-licensed--", "--"), "-licensed-", "--")
  }

  /** The first occurrence at or after i. */
  function Find(s: string, pat: string, i: nat): (k: nat)
    requires exists j :: i <= j <= |s| && OccursAt(s, pat, j)
    ensures i <= k && OccursAt(s, pat, k) && forall j :: i <= j < k ==> !OccursAt(s, pat, j)
    decreases |s| - i
  {
    if OccursAt(s, pat, i) then i else Find(s, pat, i + 1)
  }

  /** What follows the last piece that starts with the tag, in any case; empty when there is none. */
  function LastValue(pieces: seq<string>, tag: string): string {
    if pieces == [] then ""
    else
      var el := pieces[|pieces| - 1];
      if tag <= Lower(el) then el[|tag|..] else LastValue(pieces[..|pieces| - 1], tag)
  }

  /** The first of the pieces that decodes to a record. */
  function FirstRecord(codec: Codec, pieces: seq<string>): Option<CustomServer> {
    if pieces == [] then None
    else
      var first := FromConfigString(codec, Trim(pieces[0]));
      if first.Some? then first else FirstRecord(codec, pieces[1..])
  }

  /** A piece, or failing that what precedes or follows its parentheses. */
  function PieceRecord(codec: Codec, piece: string): Option<CustomServer> {
    var whole := FromConfigString(codec, Trim(piece));
    if whole.Some? then whole
    else if Contains(piece, "(") then FirstRecord(codec, Split(piece, "("))
    else None
  }

  function FirstPiece(codec: Codec, pieces: seq<string>): Option<CustomServer> {
    if pieces == [] then None
    else
      var first := PieceRecord(codec, pieces[0]);
      if first.Some? then first else FirstPiece(codec, pieces[1..])
  }

  function Parsed(codec: Codec, name: string): Option<CustomServer> {
    var s := Stem(name);
    if Contains(Lower(s), "host=") then
      var pieces := Split(s[Find(Lower(s), "host=", 0)..], ",");
      Some(CustomServer(LastValue(pieces, "key="), LastValue(pieces, "host="),
                        LastValue(pieces, "api="), LastValue(pieces, "relay=")))
    else
      FirstPiece(codec, Split(Normalized(s), "--"))
  }

  /** The loop over the fields: a later field of the same name replaces an earlier one. */
  method ReadFields(strs: seq<string>) returns (r: CustomServer)
    ensures r == CustomServer(LastValue(strs, "key="), LastValue(strs, "host="),
                              LastValue(strs, "api="), LastValue(strs, "relay="))
  {
    var host, key, api, relay := "", "", "", "";
    for i := 0 to |strs|
      invariant host == LastValue(strs[..i], "host=") && key == LastValue(strs[..i], "key=")
      invariant api == LastValue(strs[..i], "api=") && relay == LastValue(strs[..i], "relay=")
    {
      var el := strs[i];
      assert strs[..i + 1][..i] == strs[..i];
      if "host=" <= Lower(el) {
        host := el[5..];
      }
      if "key=" <= Lower(el) {
        key := el[4..];
      }
      if "api=" <= Lower(el) {
        api := el[4..];
      }
      if "relay=" <= Lower(el) {
        relay := el[6..];
      }
    }
    assert strs[..|strs|] == strs;
    r := CustomServer(key, host, api, relay);
  }

  /** The loops over the pieces, with their early returns. */
  method FindRecord(codec: Codec, strs: seq<string>) returns (r: Option<CustomServer>)
    ensures r == FirstPiece(codec, strs)
  {
    for i := 0 to |strs|
      invariant FirstPiece(codec, strs) == FirstPiece(codec, strs[i..])
    {
      var lic := FromConfigString(codec, Trim(strs[i]));
      if lic.Some? {
        return lic;
      } else if Contains(strs[i], "(") {
        var parts := Split(strs[i], "(");
        for j := 0 to |parts|
          invariant FirstRecord(codec, parts) == FirstRecord(codec, parts[j..])
        {
          var part := FromConfigString(codec, Trim(parts[j]));
          if part.Some? {
            return part;
          }
        }
      }
    }
    r := None;
  }

  method FromString(codec: Codec, name: string) returns (r: Option<CustomServer>)
    ensures r == Parsed(codec, name)
  {
    var s := Stem(name);
    if Contains(Lower(s), "host=") {
      var lic := ReadFields(Split(s[Find(Lower(s), "host=", 0)..], ","));
      return Some(lic);
    }
    r := FindRecord(codec, Split(Normalized(s), "--"));
  }

  // ----- What is assumed of the codec, for one record -----

  ghost predicate Lawful(codec: Codec, lic: CustomServer) {
    var json := codec.toJson(lic);
    && codec.fromJson(json) == Some(lic)
    && Ascii(json) && |json| >= 2 && json[|json| - 1] == CLOSE_BRACE
    // A JSON text begins with an ASCII byte, and a signed message is at least its signature long.
    && (forall d: seq<Byte> :: codec.fromJson(d).Some? ==> |d| > 0 && !d[0].b7)
    && (forall d: seq<Byte> :: codec.verify(d).Some? ==> |d| >= 64)
  }

  // ----- The round trip -----

  /** The separators the parser knows between the program's name and the record. */
  ghost predicate Separator(sep: string) {
    sep == "-licensed-" || sep == "-licensed--" || sep == "-licensed---" || sep == "--"
  }

  /** What a browser or Explorer appends to a second copy: blanks, and anything from a parenthesis on. */
  ghost predicate CopyMark(spaces: string, mark: string) {
    && (forall i :: 0 <= i < |spaces| ==> IsSpace(spaces[i]))
    && (mark == "" || mark[0] == '(')
    && (forall i :: 0 <= i < |mark| ==> mark[i] !in {'-', '.', '='})
  }

  /** Text that the parser will neither cut nor join with what precedes it. */
  ghost predicate Seamless(t: string) {
    && t != "" && t[0] != '-' && t[0] != 'l'
    && (forall i :: 0 <= i < |t| ==> t[i] != '.' && t[i] != '=')
    && (forall i :: 0 <= i < |t| - 1 ==> !(t[i] == '-' && t[i + 1] == '-'))
    && (forall i :: 0 <= i < |t| - 9 ==> !(t[i] == '-' && t[i + 9] == '-'))
  }

  /** The shape of a printed name: alphabet only, dashes four apart, and neither '-' nor 'l' first. */
  ghost predicate WellPrinted(name: string) {
    && name != "" && AllSymbols(name)
    && name[0] in {'9', 'Q', '0'}
    && forall i :: 0 <= i < |name| && name[i] == '-' ==> (|name| - 1 - i) % 4 == 3
  }

  lemma NameShape(codec: Codec, lic: CustomServer)
    requires Lawful(codec, lic)
    ensures WellPrinted(GenName(codec, lic))
  {
    EncodedShape(codec.toJson(lic));
    ReversedShape(Encode(codec.toJson(lic)));
  }

  lemma ReversedShape(enc: string)
    requires enc != "" && AllSymbols(enc) && enc[|enc| - 1] in {'9', 'Q', '0'}
    requires forall i :: 0 <= i < |enc| && enc[i] == '-' ==> i % 4 == 3
    ensures WellPrinted(Reverse(enc))
  {
    var name := Reverse(enc);
    forall i | 0 <= i < |name|
      ensures IsSymbol(name[i]) && (name[i] == '-' ==> (|name| - 1 - i) % 4 == 3)
    {
      assert name[i] == enc[|enc| - 1 - i];
    }
  }

  lemma NameSeamless(name: string, t: string)
    requires WellPrinted(name) && '-' !in t && '.' !in t && '=' !in t
    ensures Seamless(name + t)
  {
    forall i | 0 <= i < |name + t|
      ensures (name + t)[i] != '.' && (name + t)[i] != '='
    {
      assert i < |name| ==> IsSymbol(name[i]);
    }
  }

  /** A pattern that begins like "-licensed-" starts only where a dash and an 'l' meet in the prefix. */
  lemma NoLicensed(prefix: string, t: string, pat: string, i: nat)
    requires Seamless(t) && "-licensed-" <= pat
    requires i < |prefix| - 1 ==> !(prefix[i] == '-' && prefix[i + 1] == 'l')
    ensures !OccursAt(prefix + t, pat, i)
  {
    if OccursAt(prefix + t, pat, i) {
      OccursChar(prefix + t, pat, i, 0);
      OccursChar(prefix + t, pat, i, 1);
      OccursChar(prefix + t, pat, i, 9);
      assert false;
    }
  }

  lemma Normalizes(sep: string, t: string)
    requires Separator(sep) && Seamless(t)
    ensures Normalized("rustdesk" + sep + t) == "rustdesk" + "--" + t
  {
    var s := "rustdesk" + sep + t;
    var done := "rustdesk" + "--" + t;
    Settled(t, "-licensed---");
    Settled(t, "-licensed--");
    Settled(t, "-licensed-");
    if sep == "-licensed---" {
      Rewrites(sep, t);
    } else if sep == "-licensed--" {
      Skipped(sep, t, "-licensed---");
      Rewrites(sep, t);
    } else if sep == "-licensed-" {
      Skipped(sep, t, "-licensed---");
      Skipped(sep, t, "-licensed--");
      Rewrites(sep, t);
    }
  }

  /** The matching replacement acts once, right after the program's name. */
  lemma Rewrites(sep: string, t: string)
    requires sep == "-licensed-" || sep == "-licensed--" || sep == "-licensed---"
    requires Seamless(t)
    ensures Replace("rustdesk" + sep + t, sep, "--") == "rustdesk" + "--" + t
  {
    forall i | 0 <= i < 8
      ensures !OccursAt("rustdesk" + sep + t, sep, i)
    {
      if OccursAt("rustdesk" + sep + t, sep, i) {
        OccursChar("rustdesk" + sep + t, sep, i, 0);
      }
    }
    ReplaceAt("rustdesk", sep, t, "--");
    forall i | 0 <= i <= |t|
      ensures !OccursAt(t, sep, i)
    {
      NoLicensed("", t, sep, i);
      assert "" + t == t;
    }
    ReplaceNone(t, sep, "--");
  }

  /** A longer separator than the one that is there does not occur. */
  lemma Skipped(sep: string, t: string, pat: string)
    requires sep == "-licensed-" || sep == "-licensed--"
    requires pat == "-licensed--" || pat == "-licensed---"
    requires |sep| < |pat| && Seamless(t)
    ensures Replace("rustdesk" + sep + t, pat, "--") == "rustdesk" + sep + t
  {
    var s := "rustdesk" + sep + t;
    forall i | 0 <= i <= |s|
      ensures !OccursAt(s, pat, i)
    {
      if i == 8 {
        if OccursAt(s, pat, 8) {
          OccursChar(s, pat, 8, |sep|);
        }
      } else {
        NoLicensed("rustdesk" + sep, t, pat, i);
      }
    }
    ReplaceNone(s, pat, "--");
  }

  /** Once the separator is "--" the other replacements find nothing. */
  lemma Settled(t: string, pat: string)
    requires "-licensed-" <= pat && Seamless(t)
    ensures Replace("rustdesk" + "--" + t, pat, "--") == "rustdesk" + "--" + t
  {
    var s := "rustdesk" + "--" + t;
    forall i | 0 <= i <= |s|
      ensures !OccursAt(s, pat, i)
    {
      if i == 8 {
        if OccursAt(s, pat, 8) {
          OccursChar(s, pat, 8, 1);
        }
      } else {
        NoLicensed("rustdesk" + "--", t, pat, i);
      }
    }
    ReplaceNone(s, pat, "--");
  }

  lemma SplitsInTwo(t: string)
    requires Seamless(t)
    ensures Split("rustdesk" + "--" + t, "--") == ["rustdesk", t]
  {
    var s := "rustdesk" + "--" + t;
    forall i | 0 <= i < 8
      ensures !OccursAt(s, "--", i)
    {
      if OccursAt(s, "--", i) {
        OccursChar(s, "--", i, 0);
      }
    }
    SplitAt("rustdesk", "--", t);
    forall i | 0 <= i <= |t|
      ensures !OccursAt(t, "--", i)
    {
      if OccursAt(t, "--", i) {
        OccursChar(t, "--", i, 0);
        OccursChar(t, "--", i, 1);
      }
    }
    SplitNone(t, "--");
  }

  /** A name without dots loses exactly its extension, and one without '=' is not taken for fields. */
  lemma StemOf(s: string)
    requires '.' !in s && '=' !in s
    ensures Stem(s + ".exe") == s && !Contains(Lower(s), "host=")
  {
    var low := Lower(s + ".exe");
    assert low[|s|..] == ".exe" by {
      assert forall i :: 0 <= i < 4 ==> low[|s|..][i] == ".exe"[i];
    }
    if EndsWith(low, ".exe.exe") {
      OccursChar(low, ".exe.exe", |s| - 4, 0);
      assert false;
    }
    forall i | 0 <= i <= |s|
      ensures !OccursAt(Lower(s), "host=", i)
    {
      if OccursAt(Lower(s), "host=", i) {
        OccursChar(Lower(s), "host=", i, 4);
      }
    }
  }

  /** The program's own name decodes to bytes that are neither JSON nor long enough to be signed. */
  lemma ProgramNameDecodes()
    ensures Decode(Reverse("rustdesk")).Some?
    ensures |Decode(Reverse("rustdesk")).value| == 6 && Decode(Reverse("rustdesk")).value[0].b7
  {
    var tmp := "ksedtsur";
    assert Reverse("rustdesk") == tmp;
    var v := Values(tmp);
    UnpackWhole(v);
    assert v[0] == FromNumber(36) && FromNumber(36).s5;
  }

  lemma ProgramNameIsNoRecord(codec: Codec, lic: CustomServer)
    requires Lawful(codec, lic)
    ensures PieceRecord(codec, "rustdesk") == None
  {
    Untrimmed("rustdesk");
    ProgramNameDecodes();
    Absent("rustdesk", '(');
  }

  /** A character outside the alphabet and the padding makes a piece undecodable. */
  lemma Undecodable(codec: Codec, s: string, i: nat)
    requires i < |s| && !IsSymbol(s[i]) && s[i] != '='
    ensures FromConfigString(codec, s) == None
  {
    var tmp := Reverse(s);
    var k := |s| - 1 - i;
    assert tmp[k] == s[i];
    if |tmp| >= 2 && tmp[|tmp| - 1] == '=' && tmp[|tmp| - 2] == '=' {
      assert tmp[..|tmp| - 2][k] == s[i];
    } else if tmp[|tmp| - 1] == '=' {
      assert tmp[..|tmp| - 1][k] == s[i];
    }
  }

  lemma NameDecodes(codec: Codec, lic: CustomServer)
    requires Lawful(codec, lic)
    ensures FromConfigString(codec, GenName(codec, lic)) == Some(lic)
  {
    var enc := Encode(codec.toJson(lic));
    ReverseTwice(enc);
    DecodeEncode(codec.toJson(lic));
  }

  /** The record is found in its piece, whether or not a copy mark follows it. */
  lemma PieceYieldsRecord(codec: Codec, name: string, lic: CustomServer, spaces: string, mark: string)
    requires name != "" && AllSymbols(name) && FromConfigString(codec, name) == Some(lic) && CopyMark(spaces, mark)
    ensures PieceRecord(codec, name + (spaces + mark)) == Some(lic)
  {
    assert IsSymbol(name[0]) && IsSymbol(name[|name| - 1]);
    TrimTail(name, spaces);
    if mark == "" {
      assert spaces + mark == spaces;
    } else {
      var piece := name + (spaces + mark);
      assert piece == (name + spaces) + ['('] + mark[1..];
      assert piece[|name + spaces|] == '(';
      var k := TrimKeeps(piece, |name + spaces|);
      Undecodable(codec, Trim(piece), k);
      SplitAtChar(name + spaces, '(', mark[1..]);
    }
  }

  /** A name whose first piece is no record yields the second. */
  lemma SecondPiece(codec: Codec, name: string, s: string, a: string, b: string)
    requires Stem(name) == s && !Contains(Lower(s), "host=") && Split(Normalized(s), "--") == [a, b]
    requires PieceRecord(codec, a) == None && PieceRecord(codec, b).Some?
    ensures Parsed(codec, name) == PieceRecord(codec, b)
  {
    assert [a, b][1..] == [b];
    assert FirstPiece(codec, [a, b]) == FirstPiece(codec, [b]);
  }

  /**
   The round trip: a licensed file name gives its record back, with every separator the parser knows
   and whatever copy mark was put before the extension.
   */
  lemma RoundTrip(codec: Codec, lic: CustomServer, sep: string, spaces: string, mark: string)
    requires Lawful(codec, lic) && Separator(sep) && CopyMark(spaces, mark)
    ensures Parsed(codec, "rustdesk" + sep + (GenName(codec, lic) + (spaces + mark)) + ".exe") == Some(lic)
  {
    var name := GenName(codec, lic);
    var t := name + (spaces + mark);
    NameShape(codec, lic);
    NameSeamless(name, spaces + mark);
    NameDecodes(codec, lic);
    PieceYieldsRecord(codec, name, lic, spaces, mark);
    ProgramNameIsNoRecord(codec, lic);
    NameOfTwo(codec, sep, t);
  }

  lemma Dotless(sep: string, t: string)
    requires Separator(sep) && Seamless(t)
    ensures '.' !in "rustdesk" + sep + t && '=' !in "rustdesk" + sep + t
  {
  }

  lemma NameOfTwo(codec: Codec, sep: string, t: string)
    requires Separator(sep) && Seamless(t)
    requires PieceRecord(codec, "rustdesk") == None && PieceRecord(codec, t).Some?
    ensures Parsed(codec, "rustdesk" + sep + t + ".exe") == PieceRecord(codec, t)
  {
    var s := "rustdesk" + sep + t;
    Dotless(sep, t);
    StemOf(s);
    Normalizes(sep, t);
    SplitsInTwo(t);
    SecondPiece(codec, s + ".exe", s, "rustdesk", t);
  }

  /** A record whose JSON is wrapped in a signed message is read out of it. */
  lemma SignedRecord(codec: Codec, signed: seq<Byte>, json: seq<Byte>)
    requires codec.fromJson(signed).None? && codec.verify(signed) == Some(json)
    ensures FromConfigString(codec, Reverse(Encode(signed))) == codec.fromJson(json)
  {
    ReverseTwice(Encode(signed));
    DecodeEncode(signed);
  }

  /** Padded text is accepted as well. */
  lemma PaddedRecord(codec: Codec, lic: CustomServer)
    requires codec.fromJson(codec.toJson(lic)) == Some(lic)
    ensures FromConfigString(codec, Reverse(Encode(codec.toJson(lic)) + Padding(|codec.toJson(lic)|))) == Some(lic)
  {
    var json := codec.toJson(lic);
    ReverseTwice(Encode(json) + Padding(|json|));
    EitherEngine(json);
  }

  lemma EitherEngine(json: seq<Byte>)
    ensures var text := Encode(json) + Padding(|json|);
      Decode(text) == Some(json) || (Decode(text) == None && DecodePadded(text) == Some(json))
  {
    var text := Encode(json) + Padding(|json|);
    PaddedDecodes(json);
    if Padding(|json|) == "" {
      assert text == Encode(json);
      DecodeEncode(json);
    } else {
      assert text[|text| - 1] == '=' && !IsSymbol('=');
    }
  }

  /** Piece i is the first that yields a record. */
  ghost predicate FirstWith(codec: Codec, pieces: seq<string>, i: nat) {
    i < |pieces| && PieceRecord(codec, pieces[i]).Some? && forall j :: 0 <= j < i ==> PieceRecord(codec, pieces[j]).None?
  }

  /** The pieces are tried in order: the first that yields a record decides. */
  lemma {:induction false} FirstPieceExact(codec: Codec, pieces: seq<string>)
    ensures FirstPiece(codec, pieces).None? <==> forall i :: 0 <= i < |pieces| ==> PieceRecord(codec, pieces[i]).None?
    ensures forall i: nat :: FirstWith(codec, pieces, i) ==> FirstPiece(codec, pieces) == PieceRecord(codec, pieces[i])
  {
    if pieces != [] {
      var rest := pieces[1..];
      assert forall i :: 1 <= i < |pieces| ==> pieces[i] == rest[i - 1];
      FirstPieceExact(codec, rest);
      forall i: nat | FirstWith(codec, pieces, i)
        ensures FirstPiece(codec, pieces) == PieceRecord(codec, pieces[i])
      {
        assert i > 0 ==> FirstWith(codec, rest, i - 1);
      }
    }
  }

  // ----- Any list of fields -----

  predicate Begins(piece: string, tag: string) { tag <= Lower(piece) }

  /** Piece i is the last that begins with the tag, in any case. */
  ghost predicate LastWith(pieces: seq<string>, tag: string, i: nat) {
    i < |pieces| && Begins(pieces[i], tag) && forall j :: i < j < |pieces| ==> !Begins(pieces[j], tag)
  }

  ghost predicate NoneWith(pieces: seq<string>, tag: string) {
    forall i :: 0 <= i < |pieces| ==> !Begins(pieces[i], tag)
  }

  /** `value` is what follows the tag in the last piece that begins with it; or "" if none does. */
  ghost predicate FieldIs(pieces: seq<string>, tag: string, value: string) {
    || (NoneWith(pieces, tag) && value == "")
    || (exists i: nat :: LastWith(pieces, tag, i) && value == pieces[i][|tag|..])
  }

  lemma {:induction false} LastValueExact(pieces: seq<string>, tag: string)
    ensures FieldIs(pieces, tag, LastValue(pieces, tag))
  {
    if pieces != [] {
      var init, el := pieces[..|pieces| - 1], pieces[|pieces| - 1];
      if Begins(el, tag) {
        assert LastWith(pieces, tag, |pieces| - 1);
      } else {
        LastValueExact(init, tag);
        if NoneWith(init, tag) {
          assert forall i :: 0 <= i < |init| ==> pieces[i] == init[i];
        } else {
          var i: nat :| LastWith(init, tag, i) && LastValue(init, tag) == init[i][|tag|..];
          assert forall j :: 0 <= j < |init| ==> pieces[j] == init[j];
          assert LastWith(pieces, tag, i);
        }
      }
    }
  }

  /** At most one value is that. */
  lemma FieldUnique(pieces: seq<string>, tag: string, v: string, w: string)
    requires FieldIs(pieces, tag, v) && FieldIs(pieces, tag, w)
    ensures v == w
  {
    if !NoneWith(pieces, tag) {
      var i: nat :| LastWith(pieces, tag, i) && v == pieces[i][|tag|..];
      var k: nat :| LastWith(pieces, tag, k) && w == pieces[k][|tag|..];
      assert i == k;
    }
  }

  ghost predicate FieldsAre(pieces: seq<string>, r: CustomServer) {
    && FieldIs(pieces, "host=", r.host) && FieldIs(pieces, "key=", r.key)
    && FieldIs(pieces, "api=", r.api) && FieldIs(pieces, "relay=", r.relay)
  }

  /** A piece that begins with no tag, like what follows a trailing comma, changes nothing. */
  lemma OtherPiece(pieces: seq<string>, other: string, r: CustomServer)
    requires !("host=" <= Lower(other)) && !("key=" <= Lower(other)) && !("api=" <= Lower(other)) && !("relay=" <= Lower(other))
    ensures FieldsAre(pieces + [other], r) <==> FieldsAre(pieces, r)
  {
    OtherField(pieces, other, "host=", r.host);
    OtherField(pieces, other, "key=", r.key);
    OtherField(pieces, other, "api=", r.api);
    OtherField(pieces, other, "relay=", r.relay);
  }

  lemma OtherField(pieces: seq<string>, other: string, tag: string, value: string)
    requires !(tag <= Lower(other))
    ensures FieldIs(pieces + [other], tag, value) <==> FieldIs(pieces, tag, value)
  {
    assert (pieces + [other])[..|pieces|] == pieces;
    LastValueExact(pieces, tag);
    LastValueExact(pieces + [other], tag);
    if FieldIs(pieces, tag, value) {
      FieldUnique(pieces, tag, value, LastValue(pieces, tag));
    }
    if FieldIs(pieces + [other], tag, value) {
      FieldUnique(pieces + [other], tag, value, LastValue(pieces + [other], tag));
    }
  }

  /** An extension in any case is cut off once. */
  lemma CutsExtension(s: string, ext: string)
    requires Lower(ext) == ".exe" && !EndsWith(Lower(s), ".exe")
    ensures Stem(s + ext) == s
  {
    LowerConcat(s, ext);
    OneExtension(Lower(s));
  }

  lemma LowerConcat(a: string, b: string)
    ensures Lower(a + b) == Lower(a) + Lower(b)
  {
  }

  lemma OneExtension(low: string)
    ensures EndsWith(low + ".exe", ".exe")
    ensures EndsWith(low + ".exe", ".exe.exe") <==> EndsWith(low, ".exe")
  {
    var all := low + ".exe";
    assert all[|low|..] == ".exe";
    assert ".exe.exe" == ".exe" + ".exe";
    if |low| >= 4 {
      assert all[|low| - 4..] == low[|low| - 4..] + ".exe";
      assert all[|low| - 4..][..4] == low[|low| - 4..];
      assert ".exe.exe"[..4] == ".exe";
    }
  }

  lemma HostFirst(prefix: string, fields: string)
    requires '=' !in prefix && "host=" <= Lower(fields)
    ensures Contains(Lower(prefix + fields), "host=") && Find(Lower(prefix + fields), "host=", 0) == |prefix|
  {
    var low := Lower(prefix + fields);
    assert low == Lower(prefix) + Lower(fields);
    assert low[|prefix|..|prefix| + 5] == Lower(fields)[..5] == "host=";
    assert OccursAt(low, "host=", |prefix|);
    forall i: nat | i < |prefix|
      ensures !OccursAt(low, "host=", i)
    {
      if OccursAt(low, "host=", i) {
        OccursChar(low, "host=", i, 4);
        EqualsNotHost(prefix, fields, i + 4);
      }
    }
  }

  /** Before the first field's own '=' there is none. */
  lemma EqualsNotHost(prefix: string, fields: string, i: nat)
    requires '=' !in prefix && "host=" <= Lower(fields) && i < |prefix| + 4
    ensures Lower(prefix + fields)[i] != '='
  {
    if i >= |prefix| {
      assert Lower(fields)[i - |prefix|] == "host="[i - |prefix|];
    }
  }

  /**
   The parser on any list of fields: whichever tags there are, in any case and any number, the first being
   the host, each component is what follows its tag in the last piece that begins with it, and empty where
   there is none.
   */
  lemma FieldsMeaning(codec: Codec, prefix: string, pieces: seq<string>, ext: string)
    requires '=' !in prefix && Lower(ext) == ".exe"
    requires pieces != [] && "host=" <= Lower(pieces[0]) && forall i :: 0 <= i < |pieces| ==> ',' !in pieces[i]
    requires !EndsWith(Lower(prefix + JoinWith(pieces, ',')), ".exe")
    ensures var r := Parsed(codec, prefix + JoinWith(pieces, ',') + ext); r.Some? && FieldsAre(pieces, r.value)
  {
    var s := prefix + JoinWith(pieces, ',');
    CutsExtension(s, ext);
    FieldsSplit(prefix, pieces);
    ParsedFields(codec, s + ext, s, |prefix|, pieces);
    LastValues(pieces);
  }

  lemma FieldsSplit(prefix: string, pieces: seq<string>)
    requires '=' !in prefix
    requires pieces != [] && "host=" <= Lower(pieces[0]) && forall i :: 0 <= i < |pieces| ==> ',' !in pieces[i]
    ensures var s := prefix + JoinWith(pieces, ',');
      && Contains(Lower(s), "host=") && Find(Lower(s), "host=", 0) == |prefix|
      && Split(s[|prefix|..], ",") == pieces
  {
    var fields := JoinWith(pieces, ',');
    JoinFirst(pieces, ',');
    assert "host=" <= Lower(fields) by {
      assert Lower(pieces[0]) <= Lower(fields);
    }
    HostFirst(prefix, fields);
    assert (prefix + fields)[|prefix|..] == fields;
    SplitJoin(pieces, ',');
  }

  lemma LastValues(pieces: seq<string>)
    ensures FieldsAre(pieces, CustomServer(LastValue(pieces, "key="), LastValue(pieces, "host="),
                                           LastValue(pieces, "api="), LastValue(pieces, "relay=")))
  {
    LastValueExact(pieces, "host=");
    LastValueExact(pieces, "key=");
    LastValueExact(pieces, "api=");
    LastValueExact(pieces, "relay=");
  }

  /** So a host alone gives a record with nothing else in it. */
  lemma HostAlone(codec: Codec, prefix: string, host: string)
    requires '=' !in prefix && ',' !in host && !EndsWith(Lower(prefix + ("host=" + host)), ".exe")
    ensures Parsed(codec, prefix + ("host=" + host) + ".exe") == Some(CustomServer("", host, "", ""))
  {
    var pieces := ["host=" + host];
    assert Lower(".exe") == ".exe";
    Tagged("host=", host);
    FieldsMeaning(codec, prefix, pieces, ".exe");
    OnlyHost(pieces[0], host, Parsed(codec, prefix + JoinWith(pieces, ',') + ".exe").value);
  }

  lemma OnlyHost(piece: string, host: string, r: CustomServer)
    requires piece == "host=" + host && FieldsAre([piece], r)
    ensures r == CustomServer("", host, "", "")
  {
    Tagged("host=", host);
    Untagged(piece, "key=");
    Untagged(piece, "api=");
    Untagged(piece, "relay=");
    assert Begins([piece][0], "host=");
    assert NoneWith([piece], "key=") && NoneWith([piece], "api=") && NoneWith([piece], "relay=");
  }

  // ----- The plain form, host=...,key=...,api=...,relay=... -----

  function LeadingFields(lic: CustomServer): seq<string> {
    ["host=" + lic.host, "key=" + lic.key, "api=" + lic.api]
  }

  function Fields(lic: CustomServer): string {
    JoinWith(LeadingFields(lic) + ["relay=" + lic.relay], ',')
  }

  ghost predicate Commaless(lic: CustomServer) {
    ',' !in lic.host && ',' !in lic.key && ',' !in lic.api && ',' !in lic.relay
  }

  /**
   A record with comma-free fields, written out in a file name, comes back exactly when its last field
   does not itself end in ".exe": the parser would take that for a doubled extension and cut it off.
   */
  lemma FieldsRoundTrip(codec: Codec, lic: CustomServer)
    requires Commaless(lic)
    ensures Parsed(codec, "rustdesk-" + Fields(lic) + ".exe") == Some(lic) <==> !EndsWith(Lower(lic.relay), ".exe")
  {
    FieldsEnd(lic);
    var s := "rustdesk-" + Fields(lic);
    DoubledExtension(s);
    if EndsWith(Lower(lic.relay), ".exe") {
      CutRelay(codec, lic);
    } else {
      FieldsParsed(codec, s + ".exe", lic);
    }
  }

  /** Everything before the relay, which the text ends with. */
  function BeforeRelay(lic: CustomServer): string {
    "rustdesk-" + JoinWith(LeadingFields(lic) + ["relay="], ',')
  }

  lemma RelayLast(lic: CustomServer)
    ensures "rustdesk-" + Fields(lic) == BeforeRelay(lic) + lic.relay
  {
    JoinLast(LeadingFields(lic), "relay=", lic.relay, ',');
  }

  /** The text ends in ".exe" exactly when the relay does. */
  lemma FieldsEnd(lic: CustomServer)
    ensures EndsWith(Lower("rustdesk-" + Fields(lic)), ".exe") <==> EndsWith(Lower(lic.relay), ".exe")
  {
    var head := BeforeRelay(lic);
    RelayLast(lic);
    assert head[|head| - 1] == '=' by {
      JoinLast(LeadingFields(lic), "", "relay=", ',');
      assert "" + "relay=" == "relay=";
    }
    SameEnding(head, lic.relay);
  }

  /** A relay that ends in ".exe" loses that ending. */
  lemma CutRelay(codec: Codec, lic: CustomServer)
    requires Commaless(lic) && EndsWith(Lower(lic.relay), ".exe")
    requires Stem("rustdesk-" + Fields(lic) + ".exe") == ("rustdesk-" + Fields(lic))[..|"rustdesk-" + Fields(lic)| - 4]
    ensures Parsed(codec, "rustdesk-" + Fields(lic) + ".exe") == Some(lic.(relay := lic.relay[..|lic.relay| - 4]))
  {
    var s, cut := "rustdesk-" + Fields(lic), lic.(relay := lic.relay[..|lic.relay| - 4]);
    RelayLast(lic);
    RelayLast(cut);
    assert s[..|s| - 4] == "rustdesk-" + Fields(cut);
    FieldsParsed(codec, s + ".exe", cut);
  }

  lemma FieldsParsed(codec: Codec, name: string, lic: CustomServer)
    requires Commaless(lic) && Stem(name) == "rustdesk-" + Fields(lic)
    ensures Parsed(codec, name) == Some(lic)
  {
    var s := "rustdesk-" + Fields(lic);
    var pieces := LeadingFields(lic) + ["relay=" + lic.relay];
    JoinFirst(pieces, ',');
    HostFound(Fields(lic));
    assert s[9..] == Fields(lic);
    PiecesCommaless(lic);
    SplitJoin(pieces, ',');
    FieldValues(lic);
    assert pieces == ["host=" + lic.host, "key=" + lic.key, "api=" + lic.api, "relay=" + lic.relay];
    ParsedFields(codec, name, s, 9, pieces);
  }

  lemma PiecesCommaless(lic: CustomServer)
    requires Commaless(lic)
    ensures var pieces := LeadingFields(lic) + ["relay=" + lic.relay];
            forall i :: 0 <= i < |pieces| ==> ',' !in pieces[i]
  {
  }

  lemma ParsedFields(codec: Codec, name: string, s: string, k: nat, pieces: seq<string>)
    requires Stem(name) == s && Contains(Lower(s), "host=") && Find(Lower(s), "host=", 0) == k <= |s|
    requires Split(s[k..], ",") == pieces
    ensures Parsed(codec, name) == Some(CustomServer(LastValue(pieces, "key="), LastValue(pieces, "host="),
                                                     LastValue(pieces, "api="), LastValue(pieces, "relay=")))
  {
  }

  /** Text ending in '=' does not help what follows it to end in ".exe". */
  lemma SameEnding(a: string, r: string)
    requires a != "" && a[|a| - 1] == '='
    ensures EndsWith(Lower(a + r), ".exe") <==> EndsWith(Lower(r), ".exe")
  {
    assert Lower(a + r) == Lower(a) + Lower(r);
    if |r| >= 4 {
      assert Lower(a + r)[|a + r| - 4..] == Lower(r)[|r| - 4..];
    } else {
      forall k: nat | k < 4
        ensures ".exe"[k] != '='
      {
      }
      assert Lower(a + r)[|a| - 1] == '=';
      assert |a + r| >= 4 ==> Lower(a + r)[|a + r| - 4..][3 - |r|] == '=';
    }
  }

  /** One extension is cut off, or two when the name already ended in one. */
  lemma DoubledExtension(s: string)
    ensures Stem(s + ".exe") == if EndsWith(Lower(s), ".exe") then s[..|s| - 4] else s
  {
    assert Lower(".exe") == ".exe";
    LowerConcat(s, ".exe");
    OneExtension(Lower(s));
    if |s| >= 4 {
      assert (s + ".exe")[..|s + ".exe"| - 8] == s[..|s| - 4];
    }
    assert (s + ".exe")[..|s|] == s;
  }

  lemma HostFound(fields: string)
    requires "host=" <= fields
    ensures Contains(Lower("rustdesk-" + fields), "host=") && Find(Lower("rustdesk-" + fields), "host=", 0) == 9
  {
    var s := "rustdesk-" + fields;
    var low := Lower(s);
    forall k: nat | k < 5
      ensures low[9..14][k] == "host="[k]
    {
      assert s[9 + k] == fields[k] == "host="[k];
    }
    assert OccursAt(low, "host=", 9);
    forall i: nat | i < 9
      ensures !OccursAt(low, "host=", i)
    {
      if OccursAt(low, "host=", i) {
        OccursChar(low, "host=", i, 0);
      }
    }
  }

  /** Each field is found in its own piece and nowhere else. */
  lemma FieldValues(lic: CustomServer)
    ensures var pieces := ["host=" + lic.host, "key=" + lic.key, "api=" + lic.api, "relay=" + lic.relay];
      && LastValue(pieces, "host=") == lic.host && LastValue(pieces, "key=") == lic.key
      && LastValue(pieces, "api=") == lic.api && LastValue(pieces, "relay=") == lic.relay
  {
    var h, k, a, r := "host=" + lic.host, "key=" + lic.key, "api=" + lic.api, "relay=" + lic.relay;
    assert [h, k, a, r][..3] == [h, k, a] && [h, k, a][..2] == [h, k] && [h, k][..1] == [h];
    Tagged("host=", lic.host);
    Tagged("key=", lic.key);
    Tagged("api=", lic.api);
    Tagged("relay=", lic.relay);
    Untagged(r, "api=");
    Untagged(r, "key=");
    Untagged(r, "host=");
    Untagged(a, "key=");
    Untagged(a, "host=");
    Untagged(k, "host=");
    assert LastValue([h], "host=") == lic.host;
    assert LastValue([h, k], "host=") == lic.host && LastValue([h, k], "key=") == lic.key;
    assert LastValue([h, k, a], "host=") == lic.host && LastValue([h, k, a], "key=") == lic.key;
  }

  lemma Tagged(tag: string, value: string)
    requires tag in {"host=", "key=", "api=", "relay="}
    ensures tag <= Lower(tag + value) && (tag + value)[|tag|..] == value
  {
    assert forall i :: 0 <= i < |tag| ==> Lower(tag + value)[i] == tag[i];
  }

  lemma Untagged(piece: string, tag: string)
    requires piece != "" && tag != "" && LowerChar(piece[0]) != tag[0]
    ensures !(tag <= Lower(piece))
  {
  }

  // ----- The name the command-line tool prints -----

  /** Byte 249. */
  const STRAY := Byte(true, true, true, true, true, false, false, true)

  const TOOL_PREFIX := "rustdesk-custom_serverd-"

  /** A prefix that the parser neither cuts off nor finds undecodable. */
  ghost predicate Glued(prefix: string) {
    && |prefix| >= 4 && |prefix| % 4 == 0 && AllSymbols(prefix)
    && prefix[0] == 'r' && prefix[|prefix| - 2..] == "d-"
    && forall j :: 0 <= j < |prefix| - 1 && prefix[j] == '-' ==> prefix[j + 1] != '-' && prefix[j + 1] != 'l'
  }

  lemma ToolPrefixIsGlued()
    ensures Glued(TOOL_PREFIX)
  {
    assert TOOL_PREFIX[22..] == "d-";
  }

  /**
   `naming.rs` prints its names with the prefix "rustdesk-custom_serverd-", which the parser does not
   cut off: it decodes prefix and record as one piece.  That is refused for its trailing bits unless
   the record's encoding fills whole groups, and then the JSON is followed by the stray byte 249.
   */
  lemma ToolNameIsRefused(codec: Codec, lic: CustomServer)
    requires Lawful(codec, lic)
    requires forall junk: seq<Byte> {:trigger codec.toJson(lic) + junk} :: junk != [] && junk[0] == STRAY ==>
               codec.fromJson(codec.toJson(lic) + junk).None? && codec.verify(codec.toJson(lic) + junk).None?
    ensures Parsed(codec, TOOL_PREFIX + GenName(codec, lic) + ".exe") == None
  {
    ToolPrefixIsGlued();
    NameShape(codec, lic);
    GluedNotDecoded(codec, lic, TOOL_PREFIX);
    GluedIsOnePiece(codec, TOOL_PREFIX, GenName(codec, lic));
  }

  lemma GluedNotDecoded(codec: Codec, lic: CustomServer, prefix: string)
    requires Glued(prefix)
    requires forall junk: seq<Byte> {:trigger codec.toJson(lic) + junk} :: junk != [] && junk[0] == STRAY ==>
               codec.fromJson(codec.toJson(lic) + junk).None? && codec.verify(codec.toJson(lic) + junk).None?
    ensures FromConfigString(codec, prefix + GenName(codec, lic)) == None
  {
    ReverseConcat(prefix, GenName(codec, lic));
    ReverseTwice(Encode(codec.toJson(lic)));
    GluedTail(prefix);
    var junk := Decode(Reverse(prefix)).value;
    assert codec.fromJson(codec.toJson(lic) + junk).None?;
    TailNotDecoded(codec, prefix + GenName(codec, lic), codec.toJson(lic), Reverse(prefix));
  }

  lemma TailNotDecoded(codec: Codec, s: string, json: seq<Byte>, tail: string)
    requires Reverse(s) == Encode(json) + tail
    requires AllSymbols(tail) && |tail| % 4 == 0 && tail != "" && Value(tail[|tail| - 1]).s0 && Decode(tail).Some?
    requires codec.fromJson(json + Decode(tail).value).None? && codec.verify(json + Decode(tail).value).None?
    ensures FromConfigString(codec, s) == None
  {
    var enc := Encode(json);
    assert |s| == |enc + tail|;
    if |enc| % 4 == 0 {
      DecodeWholeTail(json, tail);
      Refused(codec, s, Some(json + Decode(tail).value));
    } else {
      DecodeRaggedTail(json, tail);
      Refused(codec, s, None);
    }
  }

  lemma Refused(codec: Codec, s: string, data: Option<seq<Byte>>)
    requires Decode(Reverse(s)) == data && (data.None? ==> |s| % 4 != 0)
    requires data.Some? ==> codec.fromJson(data.value).None? && codec.verify(data.value).None?
    ensures FromConfigString(codec, s) == None
  {
  }

  /** Read backwards, such a prefix begins with byte 249 and ends in nonzero low bits. */
  lemma GluedTail(prefix: string)
    requires Glued(prefix)
    ensures var tail := Reverse(prefix);
      && AllSymbols(tail) && |tail| % 4 == 0 && tail != "" && Value(tail[|tail| - 1]).s0
      && Decode(tail).Some? && Decode(tail).value != [] && Decode(tail).value[0] == STRAY
  {
    var tail := Reverse(prefix);
    assert prefix[|prefix| - 2..][0] == 'd' && prefix[|prefix| - 2..][1] == '-';
    assert tail[0] == '-' && tail[1] == 'd' && tail[|tail| - 1] == 'r';
    assert AllSymbols(tail);
    var v := Values(tail);
    UnpackWhole(v);
    assert v[0] == FromNumber(62) && v[1] == FromNumber(29) && v[|v| - 1] == FromNumber(43);
  }

  lemma GluedIsOnePiece(codec: Codec, prefix: string, name: string)
    requires Glued(prefix) && WellPrinted(name) && FromConfigString(codec, prefix + name) == None
    ensures Parsed(codec, prefix + name + ".exe") == None
  {
    ValuesConcat(prefix, name);
    GluedUncut(prefix, name);
    OnlyPiece(codec, prefix + name);
  }

  lemma OnlyPiece(codec: Codec, s: string)
    requires s != "" && AllSymbols(s) && FromConfigString(codec, s) == None
    requires Normalized(s) == s && Split(s, "--") == [s]
    ensures Parsed(codec, s + ".exe") == None
  {
    Outside(s, '.');
    Outside(s, '=');
    StemOf(s);
    NoRecord(codec, s);
    SinglePiece(codec, s + ".exe", s);
  }

  /** A character outside the alphabet is not in text made of the alphabet. */
  lemma Outside(s: string, c: char)
    requires AllSymbols(s) && !IsSymbol(c)
    ensures c !in s
  {
  }

  lemma NoRecord(codec: Codec, s: string)
    requires s != "" && AllSymbols(s) && FromConfigString(codec, s) == None
    ensures PieceRecord(codec, s) == None
  {
    assert IsSymbol(s[0]) && IsSymbol(s[|s| - 1]);
    Untrimmed(s);
    Outside(s, '(');
    Absent(s, '(');
  }

  lemma SinglePiece(codec: Codec, name: string, s: string)
    requires Stem(name) == s && !Contains(Lower(s), "host=") && Split(Normalized(s), "--") == [s]
    ensures Parsed(codec, name) == PieceRecord(codec, s)
  {
    assert FirstPiece(codec, [s][1..]) == None;
    assert FirstPiece(codec, [s]) == PieceRecord(codec, s);
  }

  lemma GluedUncut(prefix: string, name: string)
    requires Glued(prefix) && WellPrinted(name)
    ensures Normalized(prefix + name) == prefix + name
    ensures Split(prefix + name, "--") == [prefix + name]
  {
    var s := prefix + name;
    NameSeamless(name, "");
    assert name + "" == name;
    forall pat | pat in {"-licensed---", "-licensed--", "-licensed-"}
      ensures Replace(s, pat, "--") == s
    {
      forall i | 0 <= i <= |s|
        ensures !OccursAt(s, pat, i)
      {
        NoLicensed(prefix, name, pat, i);
      }
      ReplaceNone(s, pat, "--");
    }
    forall i | 0 <= i <= |s|
      ensures !OccursAt(s, "--", i)
    {
      NoDoubleDash(prefix, name, i);
    }
    SplitNone(s, "--");
  }

  lemma NoDoubleDash(prefix: string, t: string, i: nat)
    requires Seamless(t) && (i < |prefix| - 1 ==> !(prefix[i] == '-' && prefix[i + 1] == '-'))
    ensures !OccursAt(prefix + t, "--", i)
  {
    if OccursAt(prefix + t, "--", i) {
      OccursChar(prefix + t, "--", i, 0);
      OccursChar(prefix + t, "--", i, 1);
      assert false;
    }
  }
}
