/** E-mail normalisation and the top-level-domain typo hint shown at sign-up. */
module Email {
  import opened Wrappers
  import opened Text

  /** Every character of `w` is whitespace. */
  predicate AllWhitespace(w: string) {
    forall i :: 0 <= i < |w| ==> IsJsWhitespace(w[i])
  }

  /** `s` neither starts nor ends with whitespace. */
  predicate IsTrimmed(s: string) {
    s != [] ==> !IsJsWhitespace(s[0]) && !IsJsWhitespace(s[|s| - 1])
  }

  /**
   * `String.prototype.trim`: the result is the part of `s` that is left once the whitespace on
   * both sides is removed; it neither starts nor ends with whitespace.
   */
  function Trim(s: string): (r: string)
    ensures |r| <= |s| && IsTrimmed(r)
    ensures var e := |TrimEnd(s)|;
      && |r| <= e <= |s| && r == s[e - |r|..e]
      && AllWhitespace(s[..e - |r|]) && AllWhitespace(s[e..])
  {
    var m := TrimEnd(s);
    var r := TrimStart(m);
    assert r == s[|m| - |r|..|m|] && m[..|m| - |r|] == s[..|m| - |r|] by {
      assert m == s[..|m|];
    }
    r
  }

  /** The leading whitespace removed: what is cut off is all whitespace, and what is kept does not start with it. */
  function TrimStart(s: string): (r: string)
    ensures |r| <= |s| && (r != [] ==> !IsJsWhitespace(r[0]))
    ensures r == s[|s| - |r|..]
    ensures AllWhitespace(s[..|s| - |r|])
  {
    if s != [] && IsJsWhitespace(s[0]) then TrimStart(s[1..]) else s
  }

  /** The trailing whitespace removed: what is cut off is all whitespace, and what is kept does not end with it. */
  function TrimEnd(s: string): (r: string)
    ensures |r| <= |s| && (r != [] ==> !IsJsWhitespace(r[|r| - 1]))
    ensures r == s[..|r|]
    ensures AllWhitespace(s[|r|..])
  {
    if s != [] && IsJsWhitespace(s[|s| - 1]) then TrimEnd(s[..|s| - 1]) else s
  }

  /** Trailing whitespace after text that does not end with whitespace is exactly what `TrimEnd` removes. */
  lemma {:induction false} TrimEndPadded(x: string, w: string)
    requires AllWhitespace(w) && (x == [] || !IsJsWhitespace(x[|x| - 1]))
    ensures TrimEnd(x + w) == x
  {
    if w == [] {
      assert x + w == x;
    } else {
      var init := w[..|w| - 1];
      assert (x + w)[..|x + w| - 1] == x + init;
      TrimEndPadded(x, init);
    }
  }

  /** Leading whitespace before text that does not start with whitespace is exactly what `TrimStart` removes. */
  lemma {:induction false} TrimStartPadded(w: string, x: string)
    requires AllWhitespace(w) && (x == [] || !IsJsWhitespace(x[0]))
    ensures TrimStart(w + x) == x
  {
    if w == [] {
      assert w + x == x;
    } else {
      assert (w + x)[1..] == w[1..] + x;
      TrimStartPadded(w[1..], x);
    }
  }

  /** Trimming text padded with whitespace on both sides gives the text back. */
  lemma TrimOfPadded(w1: string, core: string, w2: string)
    requires AllWhitespace(w1) && AllWhitespace(w2) && IsTrimmed(core)
    ensures Trim(w1 + core + w2) == core
  {
    if core == [] {
      assert w1 + core + w2 == [] + (w1 + w2);
      TrimEndPadded([], w1 + w2);
    } else {
      TrimEndPadded(w1 + core, w2);
      TrimStartPadded(w1, core);
    }
  }

  /** `email.trim().toLowerCase()`, with ASCII case mapping. */
  function NormalizeEmail(email: string): (r: string)
    ensures |r| <= |email|
    ensures forall i :: 0 <= i < |r| ==> !IsUpper(r[i])
    ensures IsTrimmed(r)
  {
    var t := Trim(email);
    LowerKeepsTrimmed(t);
    ToLower(t)
  }

  /**
   * Lower-casing a string without surrounding whitespace leaves it without surrounding whitespace
   * and without upper-case letters.
   */
  lemma LowerKeepsTrimmed(t: string)
    requires IsTrimmed(t)
    ensures |ToLower(t)| == |t| && IsTrimmed(ToLower(t))
    ensures forall i :: 0 <= i < |t| ==> !IsUpper(ToLower(t)[i])
  {
    LowerKeepsWhitespace(t);
  }

  /** ASCII lower-casing maps whitespace to whitespace and nothing else to whitespace. */
  lemma LowerKeepsWhitespace(s: string)
    ensures forall i :: 0 <= i < |s| ==> (IsJsWhitespace(ToLower(s)[i]) <==> IsJsWhitespace(s[i]))
  {
  }

  /** `normalizeEmail` of an address padded with whitespace: the address, lower-cased. */
  lemma NormalizeEmailOfPadded(w1: string, address: string, w2: string)
    requires AllWhitespace(w1) && AllWhitespace(w2) && IsTrimmed(address)
    ensures NormalizeEmail(w1 + address + w2) == ToLower(address)
  {
    TrimOfPadded(w1, address, w2);
  }

  lemma TrimFixed(s: string)
    requires IsTrimmed(s)
    ensures Trim(s) == s
  {
    assert TrimEnd(s) == s;
    assert TrimStart(s) == s;
  }

  lemma LowerIdempotent(s: string)
    ensures ToLower(ToLower(s)) == ToLower(s)
  {
  }

  /** Normalising an address twice is normalising it once. */
  lemma NormalizeEmailIdempotent(email: string)
    ensures NormalizeEmail(NormalizeEmail(email)) == NormalizeEmail(email)
  {
    var r := NormalizeEmail(email);
    TrimFixed(r);
    LowerIdempotent(Trim(email));
  }

  /** `s.split(sep)`: the pieces between occurrences of `sep`; one piece more than there are separators. */
  function Split(s: string, sep: char): (r: seq<string>)
    ensures |r| >= 1
    ensures forall k :: 0 <= k < |r| ==> sep !in r[k]
  {
    if s == [] then [[]]
    else
      var rest := Split(s[1..], sep);
      if s[0] == sep then [[]] + rest else [[s[0]] + rest[0]] + rest[1..]
  }

  /** The pieces glued back together with `sep` between neighbours (`Array.prototype.join`). */
  function Join(parts: seq<string>, sep: char): string {
    if parts == [] then []
    else if |parts| == 1 then parts[0]
    else parts[0] + [sep] + Join(parts[1..], sep)
  }

  /** Splitting loses nothing: joining the pieces with the separator gives the string back. */
  lemma {:induction false} JoinSplit(s: string, sep: char)
    ensures Join(Split(s, sep), sep) == s
  {
    if s != [] {
      var rest := Split(s[1..], sep);
      JoinSplit(s[1..], sep);
      if s[0] == sep {
        assert Split(s, sep) == [[]] + rest;
        assert ([[]] + rest)[1..] == rest;
        assert s == [] + [sep] + s[1..];
      } else {
        var first := [s[0]] + rest[0];
        assert Split(s, sep) == [first] + rest[1..];
        if |rest| == 1 {
          assert s == [s[0]] + s[1..];
        } else {
          assert ([first] + rest[1..])[1..] == rest[1..];
          assert Join(rest, sep) == rest[0] + [sep] + Join(rest[1..], sep);
          assert s == [s[0]] + s[1..];
          assert first + [sep] + Join(rest[1..], sep) == [s[0]] + (rest[0] + [sep] + Join(rest[1..], sep));
        }
      }
    }
  }

  /** Pieces without the separator, joined and split again, come back as they were. */
  lemma {:induction false} SplitJoin(parts: seq<string>, sep: char)
    requires |parts| >= 1 && forall k :: 0 <= k < |parts| ==> sep !in parts[k]
    ensures Split(Join(parts, sep), sep) == parts
  {
    if |parts| == 1 {
      SplitWithoutSeparator(parts[0], sep);
    } else {
      var tail := Join(parts[1..], sep);
      SplitJoin(parts[1..], sep);
      var rest := [sep] + tail;
      assert rest[0] == sep && rest[1..] == tail;
      assert Split(rest, sep) == [[]] + parts[1..];
      SplitPrefix(parts[0], rest, sep);
      assert Join(parts, sep) == parts[0] + rest;
      assert parts[0] + [] == parts[0];
      assert parts == [parts[0]] + parts[1..];
    }
  }

  /** There is one piece more than there are separators. */
  lemma {:induction false} SplitCount(s: string, sep: char)
    ensures |Split(s, sep)| == multiset(s)[sep] + 1
  {
    if s != [] {
      SplitCount(s[1..], sep);
      assert s == [s[0]] + s[1..];
    }
  }

  lemma {:induction false} SplitWithoutSeparator(s: string, sep: char)
    requires sep !in s
    ensures Split(s, sep) == [s]
  {
    if s != [] {
      assert sep !in s[1..];
      SplitWithoutSeparator(s[1..], sep);
      assert s == [s[0]] + s[1..];
    }
  }

  /** Lower-casing commutes with splitting on a character that is not an upper-case letter. */
  lemma {:induction false} SplitLower(s: string, sep: char)
    requires !IsUpper(sep) && !IsLower(sep)
    ensures |Split(ToLower(s), sep)| == |Split(s, sep)|
    ensures forall k :: 0 <= k < |Split(s, sep)| ==> Split(ToLower(s), sep)[k] == ToLower(Split(s, sep)[k])
  {
    if s != [] {
      var lowered := ToLower(s);
      assert lowered[1..] == ToLower(s[1..]);
      SplitLower(s[1..], sep);
      var rest := Split(s[1..], sep);
      var loweredRest := Split(lowered[1..], sep);
      if s[0] == sep {
        assert lowered[0] == sep;
        assert Split(lowered, sep) == [[]] + loweredRest;
      } else {
        assert lowered[0] != sep;
        assert Split(lowered, sep) == [[lowered[0]] + loweredRest[0]] + loweredRest[1..];
        assert ToLower([s[0]] + rest[0]) == [lowered[0]] + loweredRest[0];
      }
    }
  }

  /** `(email.split("@")[1] || "").toLowerCase()`: the text between the first and second `@`. */
  function Domain(email: string): (d: string)
    ensures '@' !in d
  {
    var parts := Split(email, '@');
    if |parts| >= 2 then ToLower(parts[1]) else ""
  }

  /** The last `.`-separated label of the domain (all of it when it has no `.`). */
  function Tld(email: string): (tld: string)
    ensures '.' !in tld && '@' !in tld
  {
    var parts := Split(Domain(email), '.');
    var last := parts[|parts| - 1];
    assert '@' !in last by {
      SplitPiecesOfFree(Domain(email), '.', '@');
    }
    last
  }

  /** Splitting never introduces a character the string did not contain. */
  lemma {:induction false} SplitPiecesOfFree(s: string, sep: char, c: char)
    requires c !in s
    ensures forall k :: 0 <= k < |Split(s, sep)| ==> c !in Split(s, sep)[k]
  {
    if s != [] {
      assert c !in s[1..];
      SplitPiecesOfFree(s[1..], sep, c);
    }
  }

  /** The own keys of `commonTypos` and the domain each suggests. */
  const CommonTypos: map<string, string> :=
    map["con" := "com", "cim" := "com", "c0m" := "com", "orf" := "org", "ogr" := "org", "nete" := "net"]

  /** `checkTldTypo` on the table's own keys: the suggested top-level domain, or `None`. */
  function CheckTldTypo(email: string): (r: Option<string>)
    ensures r.Some? <==> Tld(email) in CommonTypos
    ensures r.Some? ==> r.value in {"com", "org", "net"}
    ensures r == Some("com") <==> Tld(email) == "con" || Tld(email) == "cim" || Tld(email) == "c0m"
    ensures r == Some("org") <==> Tld(email) == "orf" || Tld(email) == "ogr"
    ensures r == Some("net") <==> Tld(email) == "nete"
  {
    var tld := Tld(email);
    if tld in CommonTypos then Some(CommonTypos[tld]) else None
  }

  /**
   * The keys `tld in commonTypos` also finds on the table's prototype chain: the members of
   * `Object.prototype` whose names are all lower case (the domain is lower-cased first, so
   * `toString` and the like can never match).
   */
  const InheritedKeys: set<string> := {"constructor", "__proto__"}

  /** What the source's lookup yields: a suggestion, an inherited member (a function or an object, not a string), or nothing. */
  datatype TypoLookup = Suggestion(domain: string) | InheritedMember(key: string) | NoSuggestion

  /** `checkTldTypo` as written, with the `in` operator's prototype-chain lookup. */
  function CheckTldTypoAsWritten(email: string): (r: TypoLookup)
    ensures r.Suggestion? <==> CheckTldTypo(email).Some?
    ensures r.Suggestion? ==> Some(r.domain) == CheckTldTypo(email)
    ensures r.InheritedMember? <==> Tld(email) in InheritedKeys
    ensures r.InheritedMember? ==> r.key == Tld(email)
  {
    var tld := Tld(email);
    if tld in CommonTypos then Suggestion(CommonTypos[tld])
    else if tld in InheritedKeys then InheritedMember(tld)
    else NoSuggestion
  }

  /**
   * The discrepancy: for `name@host.constructor` the source's lookup returns `Object` itself, a
   * truthy non-string, so sign-up is refused with a nonsense hint; the own-key lookup gives none.
   */
  lemma InheritedKeyMatches(local: string, host: string)
    requires '@' !in local && '@' !in host
    ensures CheckTldTypoAsWritten(local + "@" + host + ".constructor") == InheritedMember("constructor")
    ensures CheckTldTypo(local + "@" + host + ".constructor") == None
  {
    assert local + "@" + host + ".constructor" == local + "@" + host + "." + "constructor";
    TldOfAddress(local, host, "constructor");
    assert ToLower("constructor") == "constructor";
  }

  /** An address without `@` has an empty domain, hence no suggestion. */
  lemma NoAtNoSuggestion(email: string)
    requires '@' !in email
    ensures Tld(email) == "" && CheckTldTypo(email) == None
  {
    SplitWithoutSeparator(email, '@');
    assert Split("", '.') == [[]];
  }

  /** The suggestion ignores letter case everywhere in the address. */
  lemma TypoIgnoresCase(email: string)
    ensures Domain(ToLower(email)) == Domain(email)
    ensures CheckTldTypo(ToLower(email)) == CheckTldTypo(email)
  {
    SplitLower(email, '@');
    var parts := Split(email, '@');
    if |parts| >= 2 {
      LowerIdempotent(parts[1]);
    }
  }

  /** The last piece of a split is what follows the last separator. */
  lemma {:induction false} SplitLast(x: string, y: string, sep: char)
    requires sep !in y
    ensures var parts := Split(x + [sep] + y, sep); |parts| >= 2 && parts[|parts| - 1] == y
  {
    var s := x + [sep] + y;
    if x == [] {
      assert s == [sep] + y && s[1..] == y;
      SplitWithoutSeparator(y, sep);
    } else {
      assert s[0] == x[0] && s[1..] == x[1..] + [sep] + y;
      SplitLast(x[1..], y, sep);
    }
  }

  lemma LowerConcat(a: string, b: string)
    ensures ToLower(a + b) == ToLower(a) + ToLower(b)
  {
  }

  /** With a single `@`, the domain is everything after it, lower-cased. */
  lemma DomainOfAddress(local: string, d: string)
    requires '@' !in local && '@' !in d
    ensures Domain(local + ['@'] + d) == ToLower(d)
  {
    SplitAt(local + ['@'] + d, local, d, '@');
  }

  /** The top-level domain of a domain `host.tld` is `tld`. */
  lemma TldOfDomain(email: string, host: string, tld: string)
    requires Domain(email) == host + ['.'] + tld && '.' !in tld
    ensures Tld(email) == tld
  {
    SplitLast(host, tld, '.');
  }

  /**
   * For `local@host.tld` with a single `@`, the top-level domain read is `tld`, lower-cased; the
   * host may itself contain further points.
   */
  lemma TldOfAddress(local: string, host: string, tld: string)
    requires '@' !in local && '@' !in host && '@' !in tld && '.' !in tld
    ensures Tld(local + "@" + host + "." + tld) == ToLower(tld)
  {
    var d := host + "." + tld;
    var e := local + "@" + host + "." + tld;
    assert e == local + ['@'] + d;
    DomainOfAddress(local, d);
    LowerConcat(host + ".", tld);
    LowerConcat(host, ".");
    assert Domain(e) == ToLower(host) + ['.'] + ToLower(tld);
    TldOfDomain(e, ToLower(host), ToLower(tld));
  }

  /** `.con` is a typo for `.com`, whatever the address around it; `.com` itself draws no hint. */
  lemma TypoConSuggestsCom(local: string, host: string)
    requires '@' !in local && '@' !in host
    ensures CheckTldTypo(local + "@" + host + ".con") == Some("com")
    ensures CheckTldTypo(local + "@" + host + ".com") == None
  {
    ConSuggestsCom(local, host);
    ComSuggestsNothing(local, host);
  }

  lemma ConSuggestsCom(local: string, host: string)
    requires '@' !in local && '@' !in host
    ensures CheckTldTypo(local + "@" + host + ".con") == Some("com")
  {
    assert local + "@" + host + ".con" == local + "@" + host + "." + "con";
    TldOfAddress(local, host, "con");
    assert ToLower("con") == "con";
  }

  lemma ComSuggestsNothing(local: string, host: string)
    requires '@' !in local && '@' !in host
    ensures CheckTldTypo(local + "@" + host + ".com") == None
  {
    assert local + "@" + host + ".com" == local + "@" + host + "." + "com";
    TldOfAddress(local, host, "com");
    assert ToLower("com") == "com";
    assert "com" !in CommonTypos;
  }

  /** A string with exactly one separator splits into the text before and after it. */
  lemma SplitAt(s: string, a: string, b: string, sep: char)
    requires s == a + [sep] + b && sep !in a && sep !in b
    ensures Split(s, sep) == [a, b]
  {
    SplitWithoutSeparator(b, sep);
    var rest := [sep] + b;
    assert rest[0] == sep && rest[1..] == b;
    assert Split(rest, sep) == [[], b];
    SplitPrefix(a, rest, sep);
    assert s == a + rest && a + [] == a;
  }

  /** Splitting `a + rest`, where `a` has no separator: `a` is glued to the first piece of `rest`. */
  lemma {:induction false} SplitPrefix(a: string, rest: string, sep: char)
    requires sep !in a
    ensures Split(a + rest, sep) == [a + Split(rest, sep)[0]] + Split(rest, sep)[1..]
  {
    if a == [] {
      var r := Split(rest, sep);
      assert a + rest == rest && a + r[0] == r[0] && [r[0]] + r[1..] == r;
    } else {
      var s := a + rest;
      assert s[0] == a[0] && s[1..] == a[1..] + rest;
      assert sep !in a[1..];
      SplitPrefix(a[1..], rest, sep);
      var r := Split(rest, sep);
      assert [a[0]] + (a[1..] + r[0]) == a + r[0];
    }
  }
}
