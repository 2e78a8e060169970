/** The search form of `FlickrSearchActivity.java`: splitting the tag text
    into tags and assembling the search parameters handed to the result
    list. */
module FlickrSearch {

  /** The two delimiters the tag text is split on, `" ,"`. */
  predicate IsDelimiter(c: char)
  {
    c == ' ' || c == ','
  }

  predicate NoDelimiter(s: string)
  {
    forall i :: 0 <= i < |s| ==> !IsDelimiter(s[i])
  }

  /** The length of the run of non-delimiters `s` starts with. */
  function Run(s: string): (n: nat)
    ensures n <= |s| && NoDelimiter(s[..n])
    ensures n < |s| ==> IsDelimiter(s[n])
  {
    if s == [] || IsDelimiter(s[0]) then 0
    else
      var n := 1 + Run(s[1..]);
      assert s[..n] == [s[0]] + s[1..][..n - 1];
      n
  }

  /** The tokens of `s`: its maximal runs of non-delimiters, in order. */
  function Tokens(s: string): seq<string>
    decreases |s|
  {
    if s == [] then []
    else if IsDelimiter(s[0]) then Tokens(s[1..])
    else
      var n := Run(s);
      [s[..n]] + Tokens(s[n..])
  }

  /** `s` with every delimiter deleted. */
  function Strip(s: string): (r: string)
    ensures NoDelimiter(r)
  {
    if s == [] then []
    else if IsDelimiter(s[0]) then Strip(s[1..])
    else [s[0]] + Strip(s[1..])
  }

  function Concat(xs: seq<string>): string
  {
    if xs == [] then [] else xs[0] + Concat(xs[1..])
  }

  /** Tags written with one space between them. */
  function JoinSpaced(xs: seq<string>): string
  {
    if xs == [] then []
    else if |xs| == 1 then xs[0]
    else xs[0] + " " + JoinSpaced(xs[1..])
  }

  /** Every token is non-empty and holds no delimiter. */
  lemma {:induction false} TokensAreWords(s: string)
    ensures forall k :: 0 <= k < |Tokens(s)| ==> |Tokens(s)[k]| > 0 && NoDelimiter(Tokens(s)[k])
    decreases |s|
  {
    if s != [] {
      if IsDelimiter(s[0]) {
        TokensAreWords(s[1..]);
      } else {
        var n := Run(s);
        TokensAreWords(s[n..]);
        assert Tokens(s) == [s[..n]] + Tokens(s[n..]);
      }
    }
  }

  lemma {:induction false} StripRun(s: string, n: nat)
    requires n <= |s| && NoDelimiter(s[..n])
    ensures Strip(s) == s[..n] + Strip(s[n..])
    decreases n
  {
    if n > 0 {
      var t := s[1..];
      assert !IsDelimiter(s[..n][0]) && s[..n][0] == s[0];
      assert t[..n - 1] == s[..n][1..];
      StripRun(t, n - 1);
      assert Strip(s) == [s[0]] + Strip(t);
      assert t[n - 1..] == s[n..];
      assert s[..n] == [s[0]] + t[..n - 1];
    }
  }

  /** The tokens, put together, are the text without its delimiters: no
      character other than a delimiter is lost, none is added, and the order
      is kept. */
  lemma {:induction false} TokensConcat(s: string)
    ensures Concat(Tokens(s)) == Strip(s)
    decreases |s|
  {
    if s != [] {
      if IsDelimiter(s[0]) {
        TokensConcat(s[1..]);
      } else {
        var n := Run(s);
        TokensConcat(s[n..]);
        StripRun(s, n);
        assert Tokens(s) == [s[..n]] + Tokens(s[n..]);
        assert Concat(Tokens(s)) == s[..n] + Concat(Tokens(s[n..]));
      }
    }
  }

  lemma {:induction false} RunOfWord(w: string, rest: string)
    requires |w| > 0 && NoDelimiter(w)
    requires rest == [] || IsDelimiter(rest[0])
    ensures Run(w + rest) == |w|
  {
    var s := w + rest;
    RunBound(s, |w|);
  }

  /** The run is as long as any prefix free of delimiters, and ends at the
      first delimiter. */
  lemma {:induction false} RunBound(s: string, n: nat)
    requires n <= |s| && NoDelimiter(s[..n])
    requires n == |s| || IsDelimiter(s[n])
    ensures Run(s) == n
    decreases n
  {
    if n > 0 {
      assert !IsDelimiter(s[..n][0]);
      assert s[1..][..n - 1] == s[1..n];
      assert s[1..n] == s[..n][1..];
      RunBound(s[1..], n - 1);
    }
  }

  /** Tags made of words and joined with spaces tokenise back into the same
      tags: tokens are the maximal runs, not shorter pieces of them. */
  lemma {:induction false} TokensOfJoin(xs: seq<string>)
    requires forall k :: 0 <= k < |xs| ==> |xs[k]| > 0 && NoDelimiter(xs[k])
    ensures Tokens(JoinSpaced(xs)) == xs
    decreases |xs|
  {
    if |xs| == 1 {
      RunOfWord(xs[0], []);
      assert xs[0] + [] == xs[0];
      assert xs[0][|xs[0]|..] == [];
    } else if |xs| > 1 {
      var w, rest := xs[0], " " + JoinSpaced(xs[1..]);
      var s := JoinSpaced(xs);
      assert s == w + rest;
      RunOfWord(w, rest);
      assert s[..|w|] == w && s[|w|..] == rest;
      assert rest[1..] == JoinSpaced(xs[1..]);
      TokensOfJoin(xs[1..]);
      assert Tokens(rest) == Tokens(JoinSpaced(xs[1..]));
    }
  }

  /** A delimiter at `pos` contributes no token. */
  lemma {:induction false} DelimiterAt(s: string, pos: nat)
    requires pos < |s| && IsDelimiter(s[pos])
    ensures Tokens(s[pos..]) == Tokens(s[pos + 1..])
  {
    assert s[pos..][0] == s[pos];
    assert s[pos..][1..] == s[pos + 1..];
  }

  /** A delimiter-free stretch `s[pos..end]` that cannot be extended is the
      next token. */
  lemma {:induction false} TokenAt(s: string, pos: nat, end: nat)
    requires pos < end <= |s|
    requires forall k :: pos <= k < end ==> !IsDelimiter(s[k])
    requires end == |s| || IsDelimiter(s[end])
    ensures Tokens(s[pos..]) == [s[pos..end]] + Tokens(s[end..])
  {
    var rest := s[pos..];
    var n := end - pos;
    assert rest[..n] == s[pos..end];
    assert NoDelimiter(rest[..n]) by {
      assert forall k :: 0 <= k < n ==> rest[..n][k] == s[pos + k];
    }
    assert n == |rest| || rest[n] == s[end];
    RunBound(rest, n);
    assert rest[n..] == s[end..];
    assert !IsDelimiter(rest[0]);
  }

  /** Scans forward from `pos` to the end of its delimiter-free stretch. */
  method RunEnd(s: string, pos: nat) returns (end: nat)
    requires pos <= |s|
    ensures pos <= end <= |s|
    ensures forall k :: pos <= k < end ==> !IsDelimiter(s[k])
    ensures end == |s| || IsDelimiter(s[end])
  {
    end := pos;
    while end < |s| && !IsDelimiter(s[end])
      invariant pos <= end <= |s|
      invariant forall k :: pos <= k < end ==> !IsDelimiter(s[k])
    {
      end := end + 1;
    }
  }

  /** `tokenizeString`: `StringTokenizer(text, " ,")` skips delimiters, then
      scans a token up to the next delimiter, until the text is used up. */
  method TokenizeString(searchTags: string) returns (tokens: seq<string>)
    ensures tokens == Tokens(searchTags)
  {
    tokens := [];
    var pos := 0;
    while pos < |searchTags|
      invariant 0 <= pos <= |searchTags|
      invariant tokens + Tokens(searchTags[pos..]) == Tokens(searchTags)
    {
      if IsDelimiter(searchTags[pos]) {
        DelimiterAt(searchTags, pos);
        pos := pos + 1;
      } else {
        var end := RunEnd(searchTags, pos);
        ghost var later := Tokens(searchTags[end..]);
        TokenAt(searchTags, pos, end);
        assert (tokens + [searchTags[pos..end]]) + later == tokens + ([searchTags[pos..end]] + later);
        tokens := tokens + [searchTags[pos..end]];
        pos := end;
      }
    }
  }

  /** `SearchParameters`: how to sort, which tags, and whether images
      without a large original are listed. */
  datatype SortCriteria = Date | Interesting

  datatype SearchParameters = SearchParameters(
    sortCriteria: SortCriteria,
    tags: seq<string>,
    includeLowResImages: bool)

  /** `startPanoListActivity`: the radio group guarantees one of the two
      sort buttons is checked. */
  method StartPanoListActivity(interestingChecked: bool, dateChecked: bool, searchTagsText: string, includeLowRes: bool)
    returns (params: SearchParameters)
    requires interestingChecked || dateChecked
    ensures params.sortCriteria == Interesting <==> interestingChecked
    ensures params.tags == Tokens(searchTagsText)
    ensures params.includeLowResImages == includeLowRes
  {
    var sort := Date;
    if interestingChecked {
      sort := Interesting;
    }
    var searchTags := TokenizeString(searchTagsText);
    params := SearchParameters(sort, searchTags, includeLowRes);
  }
}
