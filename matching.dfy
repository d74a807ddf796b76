/**
  The match rule of the vanity search: a candidate address matches a pattern
  when, for search type "prefix", it starts with the pattern and, for search
  type "suffix", it ends with it; a case-insensitive search lower-cases both
  strings first. Any other search type matches nothing.
 */
module Matching {
  import opened Ascii

  /** `s.startswith(p)`. */
  predicate StartsWith(s: string, p: string)
    ensures StartsWith(s, p) ==> |p| <= |s| && forall i :: 0 <= i < |p| ==> s[i] == p[i]
  {
    |p| <= |s| && s[..|p|] == p
  }

  /** `s.endswith(p)`. */
  predicate EndsWith(s: string, p: string)
    ensures EndsWith(s, p) ==> |p| <= |s| && forall i :: 0 <= i < |p| ==> s[|s| - |p| + i] == p[i]
  {
    |p| <= |s| && s[|s| - |p|..] == p
  }

  /** The string as compared: itself when the search is case-sensitive, its lower-case form otherwise. */
  function Normalize(s: string, caseSensitive: bool): (r: string)
    ensures |r| == |s|
    ensures caseSensitive ==> r == s
    ensures !caseSensitive ==> Lower(r) == r
  {
    if caseSensitive then s else (LowerIdempotent(s); Lower(s))
  }

  /** The test applied to the already normalised address and pattern. */
  predicate Hit(searchType: string, addressCheck: string, stringToCheck: string)
    ensures Hit(searchType, addressCheck, stringToCheck) ==>
            (searchType == "prefix" || searchType == "suffix") && |stringToCheck| <= |addressCheck|
  {
    (searchType == "prefix" && StartsWith(addressCheck, stringToCheck)) ||
    (searchType == "suffix" && EndsWith(addressCheck, stringToCheck))
  }

  /** Whether `address` satisfies a search for `pattern`. */
  predicate Matches(searchType: string, pattern: string, address: string, caseSensitive: bool)
    ensures Matches(searchType, pattern, address, caseSensitive) ==>
            (searchType == "prefix" || searchType == "suffix") && |pattern| <= |address|
  {
    Hit(searchType, Normalize(address, caseSensitive), Normalize(pattern, caseSensitive))
  }

  /** `startswith` agrees with the concatenation view: `s` is `p` followed by something. */
  lemma StartsWithIffConcat(s: string, p: string)
    ensures StartsWith(s, p) <==> exists rest :: s == p + rest
  {
    if StartsWith(s, p) {
      assert s == p + s[|p|..];
    }
    if exists rest :: s == p + rest {
      var rest :| s == p + rest;
      assert s[..|p|] == p;
    }
  }

  /** `endswith` agrees with the concatenation view: `s` is something followed by `p`. */
  lemma EndsWithIffConcat(s: string, p: string)
    ensures EndsWith(s, p) <==> exists front :: s == front + p
  {
    if EndsWith(s, p) {
      assert s == s[..|s| - |p|] + p;
    }
    if exists front :: s == front + p {
      var front :| s == front + p;
      assert s[|s| - |p|..] == p;
    }
  }

  /** A case-sensitive prefix search matches exactly the addresses that begin with the pattern,
      a suffix search exactly those that end with it. */
  lemma CaseSensitiveMatch(searchType: string, pattern: string, address: string)
    ensures Matches(searchType, pattern, address, true) <==>
            (searchType == "prefix" && exists rest :: address == pattern + rest) ||
            (searchType == "suffix" && exists front :: address == front + pattern)
  {
    StartsWithIffConcat(address, pattern);
    EndsWithIffConcat(address, pattern);
  }

  /** A case-insensitive search is the case-sensitive search on the lower-cased strings. */
  lemma CaseInsensitiveMatch(searchType: string, pattern: string, address: string)
    ensures Matches(searchType, pattern, address, false) <==>
            (searchType == "prefix" && exists rest :: Lower(address) == Lower(pattern) + rest) ||
            (searchType == "suffix" && exists front :: Lower(address) == front + Lower(pattern))
  {
    assert Normalize(address, false) == Lower(address) && Normalize(pattern, false) == Lower(pattern);
    StartsWithIffConcat(Lower(address), Lower(pattern));
    EndsWithIffConcat(Lower(address), Lower(pattern));
  }

  /** A case-insensitive search sees only the lower-case forms: two addresses, or two patterns,
      that differ only in letter case give the same outcome. */
  lemma CaseInsensitiveIgnoresCase(searchType: string, pattern: string, pattern': string,
                                   address: string, address': string)
    requires Lower(pattern) == Lower(pattern') && Lower(address) == Lower(address')
    ensures Matches(searchType, pattern, address, false) == Matches(searchType, pattern', address', false)
  {
  }

  /** In particular, upper-casing the pattern, the address or both never changes a
      case-insensitive outcome. */
  lemma CaseInsensitiveIgnoresUpper(searchType: string, pattern: string, address: string)
    ensures Matches(searchType, Upper(pattern), address, false) == Matches(searchType, pattern, address, false)
    ensures Matches(searchType, pattern, Upper(address), false) == Matches(searchType, pattern, address, false)
  {
    LowerOfUpper(pattern);
    LowerOfUpper(address);
  }

  /** A case-sensitive match is also a case-insensitive match. */
  lemma SensitiveImpliesInsensitive(searchType: string, pattern: string, address: string)
    requires Matches(searchType, pattern, address, true)
    ensures Matches(searchType, pattern, address, false)
  {
    assert Normalize(address, false) == Lower(address) && Normalize(pattern, false) == Lower(pattern);
    if searchType == "prefix" && StartsWith(address, pattern) {
      LowerSlice(address, 0, |pattern|);
      assert address[0..|pattern|] == address[..|pattern|];
    } else {
      LowerSlice(address, |address| - |pattern|, |address|);
      assert address[|address| - |pattern|..|address|] == address[|address| - |pattern|..];
      assert Lower(address)[|address| - |pattern|..|address|] == Lower(address)[|address| - |pattern|..];
    }
  }

  /** The converse fails: "SOLx" matches the prefix "sol" only when case is ignored. */
  lemma InsensitiveDoesNotImplySensitive()
    ensures Matches("prefix", "sol", "SOLx", false)
    ensures !Matches("prefix", "sol", "SOLx", true)
  {
    assert "SOLx"[..3][0] != "sol"[0];
  }

  /** A search type other than "prefix" or "suffix" matches no address. */
  lemma UnknownSearchTypeNeverMatches(searchType: string, pattern: string, address: string, caseSensitive: bool)
    requires searchType != "prefix" && searchType != "suffix"
    ensures !Matches(searchType, pattern, address, caseSensitive)
  {
  }

  /** The empty pattern matches every address, for both search types and both case modes. */
  lemma EmptyPatternMatchesAll(searchType: string, address: string, caseSensitive: bool)
    requires searchType == "prefix" || searchType == "suffix"
    ensures Matches(searchType, "", address, caseSensitive)
  {
  }

  /** Shortening a prefix pattern from the right keeps a match a match. */
  lemma PrefixPatternShortening(pattern: string, more: string, address: string, caseSensitive: bool)
    requires Matches("prefix", pattern + more, address, caseSensitive)
    ensures Matches("prefix", pattern, address, caseSensitive)
  {
    if !caseSensitive {
      LowerConcat(pattern, more);
    }
    var a := Normalize(address, caseSensitive);
    var p := Normalize(pattern, caseSensitive);
    var pm := Normalize(pattern + more, caseSensitive);
    assert pm[..|p|] == p;
    assert a[..|p|] == a[..|pm|][..|p|];
  }

  /** Shortening a suffix pattern from the left keeps a match a match. */
  lemma SuffixPatternShortening(more: string, pattern: string, address: string, caseSensitive: bool)
    requires Matches("suffix", more + pattern, address, caseSensitive)
    ensures Matches("suffix", pattern, address, caseSensitive)
  {
    if !caseSensitive {
      LowerConcat(more, pattern);
    }
    var a := Normalize(address, caseSensitive);
    var p := Normalize(pattern, caseSensitive);
    var mp := Normalize(more + pattern, caseSensitive);
    assert mp[|mp| - |p|..] == p;
    assert a[|a| - |p|..] == a[|a| - |mp|..][|mp| - |p|..];
  }
}
