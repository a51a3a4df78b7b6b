/** Region extraction from a shop's street address: `gubun1` (province or
    metropolitan city) and `gubun2` (city, county or district) are the first
    two space-separated tokens. Two variants exist: the seeding helper in
    `HomeController.DataInitializer` guards against null and blank input;
    the one in `service.DataInitializer` does not. */
module Addresses {
  import opened Common

  /** The position of the first `c` in `s`, or -1. */
  function IndexOf(s: string, c: char): (k: int)
    ensures -1 <= k < |s|
    ensures k == -1 <==> c !in s
    ensures k >= 0 ==> s[k] == c && c !in s[..k]
  {
    if |s| == 0 then -1
    else if s[0] == c then 0
    else
      var k := IndexOf(s[1..], c);
      if k == -1 then -1
      else
        assert s[..k + 1] == [s[0]] + s[1..][..k];
        k + 1
  }

  /** Every piece between separators, empty ones included: the split before
      Java discards trailing empty strings. */
  function Pieces(s: string, c: char): (r: seq<string>)
    ensures |r| >= 1
    ensures forall i :: 0 <= i < |r| ==> c !in r[i]
    ensures c !in s ==> r == [s]
    decreases |s|
  {
    var k := IndexOf(s, c);
    if k == -1 then [s]
    else [s[..k]] + Pieces(s[k + 1..], c)
  }

  /** The pieces put back together with the separator between them. */
  function Join(parts: seq<string>, c: char): string
    requires |parts| >= 1
  {
    if |parts| == 1 then parts[0] else parts[0] + [c] + Join(parts[1..], c)
  }

  /** Splitting loses nothing: joining the pieces restores the string. */
  lemma {:induction false} JoinPieces(s: string, c: char)
    ensures Join(Pieces(s, c), c) == s
    decreases |s|
  {
    var k := IndexOf(s, c);
    if k != -1 {
      var rest := s[k + 1..];
      JoinPieces(rest, c);
      PiecesStep(s, c);
      JoinCons(s[..k], Pieces(rest, c), c);
      SplitAround(s, k);
    }
  }

  lemma SplitAround(s: string, k: nat)
    requires k < |s|
    ensures s[..k] + [s[k]] + s[k + 1..] == s
  {
  }

  /** One step of `Pieces`: the text before the first separator, then the
      pieces of what follows it. */
  lemma PiecesStep(s: string, c: char)
    requires c in s
    ensures Pieces(s, c) == [s[..IndexOf(s, c)]] + Pieces(s[IndexOf(s, c) + 1..], c)
  {
  }

  lemma JoinCons(x: string, parts: seq<string>, c: char)
    requires |parts| >= 1
    ensures Join([x] + parts, c) == x + [c] + Join(parts, c)
  {
    assert ([x] + parts)[1..] == parts;
  }

  /** Drops empty strings from the end of a list. */
  function DropTrailingEmpty(xs: seq<string>): (r: seq<string>)
    ensures r <= xs
    ensures r != [] ==> r[|r| - 1] != ""
    ensures forall i :: |r| <= i < |xs| ==> xs[i] == ""
  {
    if xs == [] then []
    else if xs[|xs| - 1] == "" then DropTrailingEmpty(xs[..|xs| - 1])
    else xs
  }

  /** Java `s.split(" ")` for a one-character, non-regex separator: a string
      without the separator is returned whole (even when empty); otherwise
      the pieces, with trailing empty pieces removed. */
  function JavaSplit(s: string, c: char): (r: seq<string>)
    ensures c !in s ==> r == [s]
    ensures c in s ==> r <= Pieces(s, c) && (r != [] ==> r[|r| - 1] != "")
  {
    if c !in s then [s] else DropTrailingEmpty(Pieces(s, c))
  }

  /** `parts[i]` when it exists, else "" (the `parts.length > i ? ... : ""` idiom). */
  function TokenAt(parts: seq<string>, i: nat): string {
    if i < |parts| then parts[i] else ""
  }

  /** Dropping trailing empty pieces never changes what `TokenAt` reads. */
  lemma SplitTokens(s: string, c: char, i: nat)
    ensures TokenAt(JavaSplit(s, c), i) == TokenAt(Pieces(s, c), i)
  {
  }

  /** Dropping trailing empties leaves nothing exactly when every string
      is empty. */
  lemma {:induction false} DropTrailingEmptyNone(xs: seq<string>)
    ensures DropTrailingEmpty(xs) == [] <==> forall i :: 0 <= i < |xs| ==> xs[i] == ""
  {
    if xs != [] && xs[|xs| - 1] == "" {
      var init := xs[..|xs| - 1];
      DropTrailingEmptyNone(init);
      assert forall i :: 0 <= i < |init| ==> init[i] == xs[i];
    }
  }

  /** The split is empty exactly for a non-empty string made only of the
      separator. */
  lemma {:induction false} SplitEmptyIff(s: string, c: char)
    ensures JavaSplit(s, c) == [] <==> (|s| > 0 && forall i :: 0 <= i < |s| ==> s[i] == c)
  {
    if c in s {
      DropTrailingEmptyNone(Pieces(s, c));
      EmptyPiecesAllSeparators(s, c);
      if forall i :: 0 <= i < |s| ==> s[i] == c {
        AllSeparatorPieces(s, c);
      }
    } else if |s| > 0 {
      assert s[0] != c;
    }
  }

  /** A string of separators only splits into empty pieces. */
  lemma {:induction false} AllSeparatorPieces(s: string, c: char)
    requires forall i :: 0 <= i < |s| ==> s[i] == c
    ensures forall i :: 0 <= i < |Pieces(s, c)| ==> Pieces(s, c)[i] == ""
    decreases |s|
  {
    var k := IndexOf(s, c);
    if k != -1 {
      assert k == 0;
      var rest := s[1..];
      assert forall i :: 0 <= i < |rest| ==> rest[i] == c by {
        forall i | 0 <= i < |rest| ensures rest[i] == c {
          assert rest[i] == s[i + 1];
        }
      }
      AllSeparatorPieces(rest, c);
      assert Pieces(s, c) == [""] + Pieces(rest, c);
    } else {
      assert |s| == 0;
    }
  }

  /** Conversely, only a string of separators splits into empty pieces. */
  lemma {:induction false} EmptyPiecesAllSeparators(s: string, c: char)
    ensures (forall i :: 0 <= i < |Pieces(s, c)| ==> Pieces(s, c)[i] == "")
            ==> (forall i :: 0 <= i < |s| ==> s[i] == c)
    decreases |s|
  {
    if forall i :: 0 <= i < |Pieces(s, c)| ==> Pieces(s, c)[i] == "" {
      if c !in s {
        assert Pieces(s, c)[0] == s;
      } else {
        EmptyPiecesStep(s, c);
        EmptyPiecesAllSeparators(s[1..], c);
        SeparatorThenSeparators(s, c);
      }
    }
  }

  /** With all pieces empty, the first character is the separator and the
      rest again splits into empty pieces. */
  lemma EmptyPiecesStep(s: string, c: char)
    requires c in s
    requires forall i :: 0 <= i < |Pieces(s, c)| ==> Pieces(s, c)[i] == ""
    ensures IndexOf(s, c) == 0
    ensures forall i :: 0 <= i < |Pieces(s[1..], c)| ==> Pieces(s[1..], c)[i] == ""
  {
    PiecesStep(s, c);
    var parts := Pieces(s, c);
    assert s[..IndexOf(s, c)] == parts[0];
    assert forall i :: 0 <= i < |Pieces(s[1..], c)| ==> Pieces(s[1..], c)[i] == parts[i + 1];
  }

  lemma SeparatorThenSeparators(s: string, c: char)
    requires |s| > 0 && s[0] == c
    requires forall i :: 0 <= i < |s[1..]| ==> s[1..][i] == c
    ensures forall i :: 0 <= i < |s| ==> s[i] == c
  {
    forall i | 0 < i < |s| ensures s[i] == c {
      assert s[i] == s[1..][i - 1];
    }
  }

  /** The text up to the first separator (all of it when there is none). */
  function FirstToken(s: string, c: char): (t: string)
    ensures t <= s && c !in t
  {
    var k := IndexOf(s, c);
    if k == -1 then s else s[..k]
  }

  /** The text after the first separator, or "" when there is none. */
  function AfterFirst(s: string, c: char): string {
    var k := IndexOf(s, c);
    if k == -1 then "" else s[k + 1..]
  }

  /** The first two pieces of a split are the first token and the first
      token of what follows the first separator. */
  lemma FirstTwoPieces(s: string, c: char)
    ensures TokenAt(Pieces(s, c), 0) == FirstToken(s, c)
    ensures TokenAt(Pieces(s, c), 1) == (if c in s then FirstToken(AfterFirst(s, c), c) else "")
  {
  }

  /** The region pair. */
  datatype Region = Region(gubun1: string, gubun2: string)

  /** `HomeController.DataInitializer.parseAddress`: a null or blank address
      gives two empty strings; otherwise the first two split tokens. */
  function ParseAddressGuarded(address: Option<string>): (r: Region)
    ensures address.None? || IsBlank(address.value) ==> r == Region("", "")
    ensures address.Some? && !IsBlank(address.value) ==>
      r.gubun1 == FirstToken(address.value, ' ')
      && r.gubun2 == (if ' ' in address.value then FirstToken(AfterFirst(address.value, ' '), ' ') else "")
  {
    if address.None? || IsBlank(address.value) then Region("", "")
    else
      var parts := JavaSplit(address.value, ' ');
      SplitTokens(address.value, ' ', 0);
      SplitTokens(address.value, ' ', 1);
      FirstTwoPieces(address.value, ' ');
      Region(TokenAt(parts, 0), TokenAt(parts, 1))
  }

  /** `service.DataInitializer.parseAddress`: a null address fails on
      `split`; an address of spaces only splits into nothing and fails on
      `parts[0]`; otherwise the first two split tokens. */
  function ParseAddress(address: Option<string>): (r: Result<Region>)
    ensures address.None? ==> r.Err? && r.error.NullReference?
    ensures address.Some? ==>
      (r.Err? <==> |address.value| > 0 && forall i :: 0 <= i < |address.value| ==> address.value[i] == ' ')
    ensures r.Err? && address.Some? ==> r.error == IndexOutOfBounds
    ensures r.Ok? ==>
      r.value.gubun1 == FirstToken(address.value, ' ')
      && r.value.gubun2 == (if ' ' in address.value then FirstToken(AfterFirst(address.value, ' '), ' ') else "")
  {
    if address.None? then Err(NullReference("address"))
    else
      var parts := JavaSplit(address.value, ' ');
      SplitEmptyIff(address.value, ' ');
      if |parts| == 0 then Err(IndexOutOfBounds)
      else
        SplitTokens(address.value, ' ', 0);
        SplitTokens(address.value, ' ', 1);
        FirstTwoPieces(address.value, ' ');
        Ok(Region(parts[0], TokenAt(parts, 1)))
  }

  /** Where both variants succeed on a non-blank address, they agree. */
  lemma VariantsAgree(address: string)
    requires !IsBlank(address)
    ensures ParseAddress(Some(address)) == Ok(ParseAddressGuarded(Some(address)))
  {
  }

  /** `IndexOf` finds the first separator. */
  lemma {:induction false} IndexOfIs(s: string, c: char, k: nat)
    requires k < |s| && s[k] == c
    requires forall i :: 0 <= i < k ==> s[i] != c
    ensures IndexOf(s, c) == k
    decreases k
  {
    if k > 0 {
      assert s[0] != c;
      IndexOfIs(s[1..], c, k - 1);
    }
  }

  /** An address that starts with two space-free tokens yields those two
      tokens; the guarded variant agrees unless the address is blank. */
  lemma FirstTwoTokens(p1: string, p2: string, rest: string)
    requires ' ' !in p1 && ' ' !in p2
    requires p1 != "" || p2 != ""
    ensures var a := p1 + " " + p2 + " " + rest;
      && ParseAddress(Some(a)) == Ok(Region(p1, p2))
      && (!IsBlank(a) ==> ParseAddressGuarded(Some(a)) == Region(p1, p2))
  {
    var a := p1 + " " + p2 + " " + rest;
    var after := p2 + " " + rest;
    assert a == p1 + " " + after;
    TokenThenRest(p1, after);
    TokenThenRest(p2, rest);
    assert a[|p1|] == ' ';
    if p1 != "" {
      assert a[0] == p1[0];
    } else {
      assert a[1] == p2[0];
    }
  }

  /** A space-free token followed by a space is the first token, and what
      follows the space is the rest. */
  lemma TokenThenRest(p: string, t: string)
    requires ' ' !in p
    ensures FirstToken(p + " " + t, ' ') == p
    ensures AfterFirst(p + " " + t, ' ') == t
  {
    var a := p + " " + t;
    IndexOfIs(a, ' ', |p|);
    assert a[..|p|] == p && a[|p| + 1..] == t;
  }

  /** The first documented example. */
  lemma SeoulExample(a: string)
    requires a == "서울특별시" + " " + "강남구" + " " + "테헤란로 123"
    ensures ParseAddressGuarded(Some(a)) == Region("서울특별시", "강남구")
    ensures ParseAddress(Some(a)) == Ok(Region("서울특별시", "강남구"))
  {
    var p1, p2, rest := "서울특별시", "강남구", "테헤란로 123";
    FirstTwoTokens(p1, p2, rest);
    assert a == p1 + " " + p2 + " " + rest;
    assert !IsBlank(a) by {
      assert a[0] == p1[0];
    }
  }

  /** The second documented example. */
  lemma GyeonggiExample(a: string)
    requires a == "경기도" + " " + "수원시" + " " + "영통구 대학로 123"
    ensures ParseAddressGuarded(Some(a)) == Region("경기도", "수원시")
    ensures ParseAddress(Some(a)) == Ok(Region("경기도", "수원시"))
  {
    var p1, p2, rest := "경기도", "수원시", "영통구 대학로 123";
    FirstTwoTokens(p1, p2, rest);
    assert a == p1 + " " + p2 + " " + rest;
    assert !IsBlank(a) by {
      assert a[0] == p1[0];
    }
  }

  /** A leading space makes `gubun1` empty: the split keeps leading pieces. */
  lemma LeadingSpaceExample(a: string)
    requires a == " " + "서울" + " " + "강남구"
    ensures ParseAddressGuarded(Some(a)) == Region("", "서울")
  {
    var p1, p2, rest := "", "서울", "강남구";
    FirstTwoTokens(p1, p2, rest);
    assert a == p1 + " " + p2 + " " + rest;
    assert !IsBlank(a) by {
      assert a[1] == p2[0];
    }
  }

  /** Only the guard separates the variants: on spaces they differ. */
  lemma SpacesExample()
    ensures ParseAddressGuarded(Some("   ")) == Region("", "")
    ensures ParseAddress(Some("   ")).Err?
    ensures ParseAddress(Some("")) == Ok(Region("", ""))
  {
  }
}
