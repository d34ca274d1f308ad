/** `extract_meta_keywords`: the `content` attributes of the matched meta
    tags (keywords, Keywords, property keywords, description, in that
    order; a tag without `content` gives "") are stripped, split at the
    first of ',', ';' and '|' that occurs in them, and the stripped,
    non-blank pieces are returned in order. */
module MetaKeywords {
  import opened Text

  /** The delimiters, in the order they are tried. */
  const Delimiters: seq<char> := [',', ';', '|']

  /** Index of the first delimiter, from the k-th on, that occurs in
      `content`; |Delimiters| when none does. */
  function DelimiterIndex(content: string, k: nat): (r: nat)
    decreases |Delimiters| - k
    ensures k <= |Delimiters| ==> k <= r <= |Delimiters|
    ensures r < |Delimiters| ==> Delimiters[r] in content
    ensures forall j :: k <= j < r && j < |Delimiters| ==> Delimiters[j] !in content
  {
    if k >= |Delimiters| then k
    else if Delimiters[k] in content then k
    else DelimiterIndex(content, k + 1)
  }

  /** `[kw.strip() for kw in pieces]`. */
  function StripAll(pieces: seq<string>): seq<string>
  {
    seq(|pieces|, k requires 0 <= k < |pieces| => Strip(pieces[k]))
  }

  /** What one tag adds to `keywords`: nothing for blank content; the
      stripped pieces of a split at the first delimiter present; otherwise
      the stripped content itself. */
  function ContentTokens(raw: string): (r: seq<string>)
    ensures (forall k :: 0 <= k < |raw| ==> IsSpace(raw[k])) <==> r == []
    ensures forall k :: 0 <= k < |r| ==> Strip(r[k]) == r[k]
  {
    StripBlank(raw);
    var content := Strip(raw);
    if content == "" then []
    else
      var i := DelimiterIndex(content, 0);
      if i < |Delimiters| then
        var r := StripAll(Split(content, Delimiters[i]));
        assert forall k :: 0 <= k < |r| ==> Strip(r[k]) == r[k] by {
          forall k | 0 <= k < |r| ensures Strip(r[k]) == r[k] {
            StripIdempotent(Split(content, Delimiters[i])[k]);
          }
        }
        r
      else
        StripIdempotent(raw);
        [content]
  }

  /** The `keywords` list after all tags, in tag order. */
  function RawTokens(contents: seq<string>): seq<string>
  {
    if contents == [] then []
    else RawTokens(contents[..|contents| - 1]) + ContentTokens(contents[|contents| - 1])
  }

  /** Empty or all whitespace: what `kw and len(kw.strip()) > 0` rejects
      (see `Text.StripBlank`). */
  predicate Blank(x: string)
  {
    forall k :: 0 <= k < |x| ==> IsSpace(x[k])
  }

  /** `[kw for kw in keywords if kw and len(kw.strip()) > 0]`. */
  function NonBlank(xs: seq<string>): (r: seq<string>)
    ensures forall k :: 0 <= k < |r| ==> !Blank(r[k])
    ensures |r| <= |xs|
  {
    if xs == [] then []
    else
      var p := NonBlank(xs[..|xs| - 1]);
      var x := xs[|xs| - 1];
      if !Blank(x) then p + [x] else p
  }

  /** The filter keeps only keywords it was given. */
  lemma {:induction false} NonBlankSound(xs: seq<string>)
    ensures forall k :: 0 <= k < |NonBlank(xs)| ==> NonBlank(xs)[k] in xs
  {
    if xs != [] {
      NonBlankSound(xs[..|xs| - 1]);
    }
  }

  /** Every non-blank keyword survives the filter. */
  lemma {:induction false} NonBlankComplete(xs: seq<string>, x: string)
    requires x in xs && !Blank(x)
    ensures x in NonBlank(xs)
  {
    var init := xs[..|xs| - 1];
    if x != xs[|xs| - 1] {
      assert x in init;
      NonBlankComplete(init, x);
    }
  }

  /** The tags contribute independently: the tokens of two runs of tags are
      the tokens of each run, one after the other. */
  lemma {:induction false} RawTokensAppend(a: seq<string>, b: seq<string>)
    ensures RawTokens(a + b) == RawTokens(a) + RawTokens(b)
    decreases |b|
  {
    if b != [] {
      var init := b[..|b| - 1];
      assert (a + b)[..|a + b| - 1] == a + init;
      RawTokensAppend(a, init);
    } else {
      assert a + b == a;
    }
  }

  /** When a delimiter occurs, the content is cut at every occurrence of the
      first one present (and at no other character): the pieces, joined
      back with it, give the stripped content, none of them contains it, no
      earlier delimiter occurs, and the tokens are the stripped pieces. */
  lemma DelimitedTokens(raw: string)
    requires Strip(raw) != "" && DelimiterIndex(Strip(raw), 0) < |Delimiters|
    ensures var content := Strip(raw);
      var d := Delimiters[DelimiterIndex(content, 0)];
      var pieces := Split(content, d);
      && Join(pieces, [d]) == content
      && (forall k :: 0 <= k < |pieces| ==> d !in pieces[k])
      && (forall j :: 0 <= j < DelimiterIndex(content, 0) ==> Delimiters[j] !in content)
      && ContentTokens(raw) == StripAll(pieces)
  {
    var content := Strip(raw);
    SplitJoin(content, Delimiters[DelimiterIndex(content, 0)]);
  }

  /** Content without any delimiter is one keyword: itself, stripped. */
  lemma UndelimitedToken(raw: string)
    requires Strip(raw) != ""
    requires ',' !in Strip(raw) && ';' !in Strip(raw) && '|' !in Strip(raw)
    ensures ContentTokens(raw) == [Strip(raw)]
  {
    assert DelimiterIndex(Strip(raw), 0) == |Delimiters|;
  }

  /** `extract_meta_keywords`, over the tags' `content` values. */
  method ExtractMetaKeywords(contents: seq<string>) returns (result: seq<string>)
    ensures result == NonBlank(RawTokens(contents))
    ensures forall k :: 0 <= k < |result| ==> result[k] != "" && Strip(result[k]) == result[k]
  {
    var keywords := CollectTokens(contents);
    result := FilterNonBlank(keywords);
    TokensStripped(contents);
  }

  lemma RawTokensStep(contents: seq<string>, t: nat)
    requires t < |contents|
    ensures RawTokens(contents[..t + 1]) == RawTokens(contents[..t]) + ContentTokens(contents[t])
  {
    assert contents[..t + 1][..t] == contents[..t];
  }

  /** The tag loop: every tag's tokens, in tag order. */
  method CollectTokens(contents: seq<string>) returns (keywords: seq<string>)
    ensures keywords == RawTokens(contents)
  {
    keywords := [];
    var t := 0;
    while t < |contents|
      invariant 0 <= t <= |contents|
      invariant keywords == RawTokens(contents[..t])
    {
      RawTokensStep(contents, t);
      var tokens := TagTokens(contents[t]);
      keywords := keywords + tokens;
      t := t + 1;
    }
    assert contents[..t] == contents;
  }

  /** The closing comprehension that drops blank keywords. */
  method FilterNonBlank(keywords: seq<string>) returns (result: seq<string>)
    ensures result == NonBlank(keywords)
  {
    result := [];
    var j := 0;
    while j < |keywords|
      invariant 0 <= j <= |keywords|
      invariant result == NonBlank(keywords[..j])
    {
      assert keywords[..j + 1][..j] == keywords[..j];
      var kw := keywords[j];
      StripBlank(kw);
      if kw != "" && Strip(kw) != "" {
        result := result + [kw];
      }
      j := j + 1;
    }
    assert keywords[..j] == keywords;
  }

  /** The body of the tag loop: strip the content, then the delimiter loop
      with its `for ... else`. */
  method TagTokens(raw: string) returns (tokens: seq<string>)
    ensures tokens == ContentTokens(raw)
  {
    tokens := [];
    var content := Strip(raw);
    if content != "" {
      var found := false;
      var i := 0;
      while i < |Delimiters| && !found
        invariant 0 <= i <= |Delimiters|
        invariant !found ==> tokens == [] && DelimiterIndex(content, i) == DelimiterIndex(content, 0)
        invariant found ==> (1 <= i && DelimiterIndex(content, 0) == i - 1 &&
                             tokens == StripAll(Split(content, Delimiters[i - 1])))
      {
        var delimiter := Delimiters[i];
        if delimiter in content {
          tokens := StripAll(Split(content, delimiter));
          found := true;
        }
        i := i + 1;
      }
      if !found {
        tokens := [content];
      }
    }
  }

  /** Every token of every tag is already stripped. */
  lemma {:induction false} TokensStripped(contents: seq<string>)
    ensures forall k :: 0 <= k < |NonBlank(RawTokens(contents))| ==>
      Strip(NonBlank(RawTokens(contents))[k]) == NonBlank(RawTokens(contents))[k]
  {
    StrippedRaw(contents);
    NonBlankSound(RawTokens(contents));
    var r := NonBlank(RawTokens(contents));
    forall k | 0 <= k < |r| ensures Strip(r[k]) == r[k] {
      assert r[k] in RawTokens(contents);
    }
  }

  lemma {:induction false} StrippedRaw(contents: seq<string>)
    ensures forall x :: x in RawTokens(contents) ==> Strip(x) == x
  {
    if contents != [] {
      StrippedRaw(contents[..|contents| - 1]);
    }
  }

  /** Text with no surrounding whitespace loses a leading blank and
      nothing else. */
  lemma StripLeadingBlank(b: string)
    requires b != "" && Strip(b) == b
    ensures Strip(" " + b) == b
  {
    assert (" " + b)[1..] == b;
    assert TrimStart(b) == b;
    assert TrimEnd(b) == b;
  }

  /** The tokens of stripped content whose first delimiter is the i-th. */
  lemma TokensAt(content: string, i: nat)
    requires content != "" && Strip(content) == content
    requires i < |Delimiters| && Delimiters[i] in content
    requires forall j :: 0 <= j < i ==> Delimiters[j] !in content
    ensures ContentTokens(content) == StripAll(Split(content, Delimiters[i]))
  {
    DelimiterIndexIs(content, 0, i);
  }

  lemma {:induction false} DelimiterIndexIs(content: string, k: nat, i: nat)
    requires k <= i < |Delimiters| && Delimiters[i] in content
    requires forall j :: k <= j < i ==> Delimiters[j] !in content
    ensures DelimiterIndex(content, k) == i
    decreases i - k
  {
    if k < i {
      DelimiterIndexIs(content, k + 1, i);
    }
  }

  /** Two stripped texts around inner separators need no stripping. */
  lemma StripAround(a: string, sep: string, b: string)
    requires a != "" && Strip(a) == a
    requires b != "" && Strip(b) == b
    ensures Strip(a + sep + b) == a + sep + b
  {
    var c := a + sep + b;
    assert c[0] == a[0] && c[|c| - 1] == b[|b| - 1];
    StripFixed(c);
  }

  /** With a ',' inside, the tokens of stripped content are the stripped
      pieces of its split at ','. */
  lemma CommaTokens(c: string, at: nat)
    requires c != "" && Strip(c) == c
    requires at < |c| && c[at] == ','
    ensures ContentTokens(c) == StripAll(Split(c, ','))
  {
    TokensAt(c, 0);
  }

  lemma SplitCommaBlank(a: string, b: string)
    requires ',' !in a && ',' !in b
    ensures Split(a + ", " + b, ',') == [a, " " + b]
  {
    assert a + ", " + b == a + [','] + (" " + b);
    SplitAfter(a, " " + b, ',');
    assert ',' !in " " + b;
    SplitFree(" " + b, ',');
  }

  lemma StripPair(a: string, b: string)
    requires a != "" && Strip(a) == a
    requires b != "" && Strip(b) == b
    ensures StripAll([a, " " + b]) == [a, b]
  {
    StripAllTwo(a, " " + b);
    StripLeadingBlank(b);
  }

  lemma StripAllTwo(x: string, y: string)
    ensures StripAll([x, y]) == [Strip(x), Strip(y)]
  {
  }

  /** Only the first delimiter present is used: "a, b; c" gives the two
      keywords "a" and "b; c", the ';' staying inside the second. */
  lemma FirstDelimiterOnly(a: string, b: string)
    requires a != "" && Strip(a) == a && ',' !in a
    requires b != "" && Strip(b) == b && ',' !in b
    ensures ContentTokens(a + ", " + b) == [a, b]
  {
    var c := a + ", " + b;
    StripAround(a, ", ", b);
    assert c[|a|] == ',';
    CommaTokens(c, |a|);
    SplitCommaBlank(a, b);
    StripPair(a, b);
  }

  lemma SplitDoubleComma(a: string, b: string)
    requires ',' !in a && ',' !in b
    ensures Split(a + ",," + b, ',') == [a, "", b]
  {
    assert a + ",," + b == a + [','] + ([','] + b);
    SplitAfter(a, [','] + b, ',');
    assert [','] + b == "" + [','] + b;
    SplitAfter("", b, ',');
    SplitFree(b, ',');
  }

  lemma StripTriple(a: string, b: string)
    requires a != "" && Strip(a) == a
    requires b != "" && Strip(b) == b
    ensures StripAll([a, "", b]) == [a, "", b]
  {
    var p := [a, "", b];
    var r := StripAll(p);
    assert r[0] == Strip(p[0]) == a;
    assert r[1] == Strip(p[1]) == "";
    assert r[2] == Strip(p[2]) == b;
  }

  lemma DropEmpty(a: string, b: string)
    requires !Blank(a) && !Blank(b)
    ensures NonBlank([a, "", b]) == [a, b]
  {
    DropBlank(a, "", b);
  }

  lemma DropBlank(a: string, e: string, b: string)
    requires !Blank(a) && !Blank(b) && e == []
    ensures NonBlank([a, e, b]) == [a, b]
  {
    KeepThenDrop(a, e);
    NonBlankSnoc([a, e], b);
    assert [a, e] + [b] == [a, e, b];
  }

  lemma KeepThenDrop(a: string, e: string)
    requires !Blank(a) && e == []
    ensures NonBlank([a, e]) == [a]
  {
    NonBlankSnoc([], a);
    assert [] + [a] == [a];
    NonBlankSnoc([a], e);
    assert [a] + [e] == [a, e];
  }

  /** The filter on one more keyword. */
  lemma NonBlankSnoc(xs: seq<string>, x: string)
    ensures NonBlank(xs + [x]) == if !Blank(x) then NonBlank(xs) + [x] else NonBlank(xs)
  {
    assert (xs + [x])[..|xs|] == xs;
  }

  /** Adjacent delimiters give an empty keyword, which the filter drops. */
  lemma EmptyPieceDropped(a: string, b: string)
    requires a != "" && Strip(a) == a && ',' !in a
    requires b != "" && Strip(b) == b && ',' !in b
    ensures ContentTokens(a + ",," + b) == [a, "", b]
    ensures NonBlank([a, "", b]) == [a, b]
  {
    var c := a + ",," + b;
    StripAround(a, ",,", b);
    assert c[|a|] == ',';
    CommaTokens(c, |a|);
    SplitDoubleComma(a, b);
    StripTriple(a, b);
    StripBlank(a);
    StripBlank(b);
    DropEmpty(a, b);
  }
}
