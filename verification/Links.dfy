/** What a panel link's URL says to the manifest checker (grafana/v2.py). */
module Links {
  import opened Decimal
  import opened Options
  import opened Text

  /** Where a query parameter may begin. */
  predicate Opens(c: char) { c == '?' || c == '&' }

  const VIEW := "viewPanel="
  const DTAB := "dtab="

  /** A viewPanel parameter with a number begins here. */
  predicate ViewsAt(s: string) {
    s != "" && Opens(s[0]) && StartsWith(s[1..], VIEW) && DigitsLen(s[1 + |VIEW|..]) > 0
  }

  /** The panel the first viewPanel parameter names. */
  function Target(url: string): Option<nat> {
    if url == "" then None
    else if ViewsAt(url) then
      var rest := url[1 + |VIEW|..];
      Some(NatValue(rest[..DigitsLen(rest)]))
    else Target(url[1..])
  }

  predicate WordChar(c: char) {
    'a' <= c <= 'z' || 'A' <= c <= 'Z' || IsDigit(c) || c == '_' || c == '-'
  }

  /** A word, a hyphen and the parameter's name. */
  predicate Prefixed(s: string) {
    s != "" && WordChar(s[0]) && (StartsWith(s[1..], "-" + DTAB) || Prefixed(s[1..]))
  }

  /** Some parameter names a tab, plainly or with a prefix. */
  predicate HasDtab(url: string) {
    url != "" && ((Opens(url[0]) && (StartsWith(url[1..], DTAB) || Prefixed(url[1..]))) || HasDtab(url[1..]))
  }

  predicate Closed(s: string) { forall i :: 0 <= i < |s| ==> !Opens(s[i]) }

  lemma {:induction false} ClosedSkipped(a: string, rest: string)
    requires Closed(a)
    ensures Target(a + rest) == Target(rest) && HasDtab(a + rest) == HasDtab(rest)
  {
    if a == "" {
      assert a + rest == rest;
    } else {
      assert (a + rest)[1..] == a[1..] + rest;
      ClosedSkipped(a[1..], rest);
    }
  }

  lemma {:induction false} ClosedNoTab(s: string)
    requires Closed(s)
    ensures !HasDtab(s)
  {
    if s != "" { ClosedNoTab(s[1..]); }
  }

  /** A number that ends where the text or the parameter does. */
  lemma ViewRead(c: char, id: nat, rest: string)
    requires Opens(c) && (rest != "" ==> Opens(rest[0]))
    ensures Target([c] + (VIEW + PrintNat(id)) + rest) == Some(id)
  {
    PrintNatReads(id);
    DigitsStop(PrintNat(id), rest);
    ViewsNumber(c, PrintNat(id), rest);
  }

  lemma ViewsNumber(c: char, digits: string, rest: string)
    requires Opens(c) && AllDigits(digits) && DigitsLen(digits + rest) == |digits|
    ensures Target([c] + (VIEW + digits) + rest) == Some(NatValue(digits))
  {
    var url, number := [c] + (VIEW + digits) + rest, digits + rest;
    assert url[1..] == VIEW + number && url[1 + |VIEW|..] == number && number[..|digits|] == digits;
    assert ViewsAt(url);
    hide ViewsAt, DigitsLen, NatValue;
  }

  lemma ViewPlain(digits: string)
    requires AllDigits(digits)
    ensures Closed(VIEW + digits) && forall i :: 0 <= i < |VIEW + digits| ==> (VIEW + digits)[i] != '-'
  {
    var a := VIEW + digits;
    forall i | 0 <= i < |a| ensures !Opens(a[i]) && a[i] != '-' {
      if i >= |VIEW| { assert a[i] == digits[i - |VIEW|] && IsDigit(digits[i - |VIEW|]); }
    }
  }

  lemma {:induction false} NoTabInFront(a: string, rest: string)
    requires Closed(a) && (forall i :: 0 <= i < |a| ==> a[i] != '-') && !HasDtab(rest)
    requires a != "" && a[0] != 'd' && (rest != "" ==> Opens(rest[0]))
    ensures forall c :: !HasDtab([c] + a + rest)
  {
    ClosedSkipped(a, rest);
    NoPrefix(a, rest);
    forall c ensures !HasDtab([c] + a + rest) { assert ([c] + a + rest)[1..] == a + rest; }
  }

  /** A parameter without a hyphen has no prefixed name, whatever follows it. */
  lemma {:induction false} NoPrefix(a: string, rest: string)
    requires (forall i :: 0 <= i < |a| ==> a[i] != '-') && (rest != "" ==> Opens(rest[0]))
    ensures !Prefixed(a + rest)
  {
    if a == "" {
      assert a + rest == rest;
    } else {
      assert (a + rest)[1..] == a[1..] + rest;
      NoPrefix(a[1..], rest);
    }
  }

  /** A parameter begins here and has the name. */
  predicate Named(url: string, i: nat, name: string) {
    i + 1 + |name| <= |url| && url[i] in {'?', '&'} && url[i + 1..i + 1 + |name|] == name
  }

  /** Here the parameter "viewPanel" has a number. */
  predicate Viewed(url: string, i: nat) {
    Named(url, i, "viewPanel=") && i + 11 < |url| && '0' <= url[i + 11] <= '9'
  }

  lemma {:induction false} ViewedHere(url: string, i: nat)
    requires i < |url|
    ensures Viewed(url, i) <==> ViewsAt(url[i..])
  {
    var s := url[i..];
    assert s[0] == url[i] && s[1..] == url[i + 1..] && |VIEW| == 10;
    if i + 11 <= |url| {
      assert forall k :: 0 <= k < 10 ==> url[i + 1..i + 11][k] == s[1..][k];
      assert s[11..] == url[i + 11..];
    }
  }

  lemma TargetHere(url: string, from: nat)
    requires from < |url|
    ensures Target(url[from..]) ==
      if Viewed(url, from) then Some(NatValue(url[from + 11..from + 11 + DigitsLen(url[from + 11..])]))
      else Target(url[from + 1..])
  {
    ViewedHere(url, from);
    assert url[from..][1..] == url[from + 1..];
    if Viewed(url, from) {
      assert url[from..][1 + |VIEW|..] == url[from + 11..];
      var rest := url[from + 11..];
      assert rest[..DigitsLen(rest)] == url[from + 11..from + 11 + DigitsLen(rest)];
    }
  }

  /** A link views a panel exactly when it has such a parameter. */
  lemma {:induction false} TargetExactly(url: string, from: nat)
    requires from <= |url|
    ensures Target(url[from..]) == None <==> forall i :: from <= i < |url| ==> !Viewed(url, i)
    decreases |url| - from
  {
    if from < |url| {
      TargetHere(url, from);
      TargetExactly(url, from + 1);
      hide Target, Viewed, NatValue, DigitsLen;
    }
  }

  /** And the first one says which. */
  lemma {:induction false} FirstCounts(url: string, from: nat, i: nat)
    requires from <= i < |url| && Viewed(url, i) && forall k :: from <= k < i ==> !Viewed(url, k)
    ensures Target(url[from..]) == Some(NatValue(url[i + 11..i + 11 + DigitsLen(url[i + 11..])]))
    decreases i - from
  {
    TargetHere(url, from);
    if from < i {
      FirstCounts(url, from + 1, i);
      hide Target, Viewed, NatValue, DigitsLen;
    }
  }

  /** A tab is named by "dtab", or by "dtab" behind word characters that end in a hyphen. */
  predicate TabNamed(url: string, i: nat, j: nat) {
    && i < j && j + 5 <= |url| && url[i] in {'?', '&'} && url[j..j + 5] == "dtab="
    && (j == i + 1 || (j > i + 2 && url[j - 1] == '-' && forall k :: i < k < j - 1 ==>
          '0' <= url[k] <= '9' || 'a' <= url[k] <= 'z' || 'A' <= url[k] <= 'Z' || url[k] in {'_', '-'}))
  }

  lemma PrefixShift(s: string, j: int)
    requires s != "" && j >= 3
    ensures PrefixTo(s, j) <==> WordChar(s[0]) && PrefixTo(s[1..], j - 1)
  {
    hide WordChar;
    var t := s[1..];
    assert forall k :: 0 <= k < |t| ==> t[k] == s[k + 1];
    if j + 5 <= |s| { assert t[j - 1..j + 4] == s[j..j + 5]; }
    if PrefixTo(s, j) { assert forall k :: 0 <= k < j - 2 ==> t[k] == s[k + 1]; }
    if WordChar(s[0]) && PrefixTo(t, j - 1) { assert forall k :: 0 < k < j - 1 ==> s[k] == t[k - 1]; }
  }

  lemma PrefixShort(s: string)
    requires s != ""
    ensures PrefixTo(s, 2) <==> WordChar(s[0]) && StartsWith(s[1..], "-" + DTAB)
  {
    hide WordChar;
    var t, name := s[1..], "-" + DTAB;
    assert forall k :: 0 <= k < |t| ==> t[k] == s[k + 1];
    if |s| >= 7 {
      assert forall k :: 0 <= k < 5 ==> s[2..7][k] == t[k + 1];
      assert forall k :: 0 < k < 6 ==> name[k] == DTAB[k - 1];
    }
  }

  lemma {:induction false} PrefixedExactly(s: string)
    ensures Prefixed(s) <==> exists j :: PrefixTo(s, j)
  {
    hide PrefixTo, WordChar, StartsWith;
    if s == "" {
      NoPrefixTo(s);
    } else {
      PrefixedExactly(s[1..]);
      PrefixShort(s);
      if j :| PrefixTo(s[1..], j) { PrefixLong(s[1..], j); PrefixShift(s, j + 1); }
      if j :| PrefixTo(s, j) {
        PrefixLong(s, j);
        if j >= 3 { PrefixShift(s, j); }
      }
    }
  }

  lemma PrefixLong(s: string, j: int)
    requires PrefixTo(s, j)
    ensures j >= 2
  {}

  lemma NoPrefixTo(s: string)
    requires s == ""
    ensures forall j :: !PrefixTo(s, j)
  {}

  /** Word characters, a hyphen, and the name from position j on. */
  predicate PrefixTo(s: string, j: int) {
    2 <= j && j + 5 <= |s| && s[j..j + 5] == "dtab=" && s[j - 1] == '-' && forall k :: 0 <= k < j - 1 ==> WordChar(s[k])
  }

  lemma TabNamedHere(url: string, i: nat)
    requires i < |url|
    ensures (exists j: nat :: TabNamed(url, i, j)) <==>
      Opens(url[i]) && (StartsWith(url[i + 1..], DTAB) || Prefixed(url[i + 1..]))
  {
    var s := url[i + 1..];
    PrefixedExactly(s);
    assert forall k :: 0 <= k < |s| ==> s[k] == url[i + 1 + k];
    if j: nat :| TabNamed(url, i, j) {
      if j == i + 1 {
        assert forall k :: 0 <= k < 5 ==> url[j..j + 5][k] == s[k];
      } else {
        assert s[j - i - 1..j - i + 4] == url[j..j + 5];
        assert PrefixTo(s, j - i - 1);
      }
    }
    if Opens(url[i]) && StartsWith(s, DTAB) {
      assert url[i + 1..i + 6] == "dtab=";
      assert TabNamed(url, i, i + 1);
    }
    if j :| Opens(url[i]) && PrefixTo(s, j) {
      assert url[i + 1 + j..i + 6 + j] == s[j..j + 5];
      assert TabNamed(url, i, i + 1 + j);
    }
  }

  lemma {:induction false} HasDtabExactly(url: string, from: nat)
    requires from <= |url|
    ensures HasDtab(url[from..]) <==> exists i: nat, j: nat :: from <= i && TabNamed(url, i, j)
    decreases |url| - from
  {
    if from < |url| {
      hide TabNamed, Prefixed;
      assert url[from..][1..] == url[from + 1..];
      HasDtabExactly(url, from + 1);
      TabNamedHere(url, from);
      if i: nat, j: nat :| from + 1 <= i && TabNamed(url, i, j) {}
      if i: nat, j: nat :| from <= i && TabNamed(url, i, j) {}
    }
  }

  /** A rule's deep link is read as naming its panel, and a tab. */
  lemma DashboardPathRead(uid: string, slug: string, id: nat)
    requires Closed(uid) && Closed(slug)
    ensures var url := "/d/" + uid + "?" + DTAB + slug + "&" + VIEW + PrintNat(id);
      Target(url) == Some(id) && HasDtab(url)
  {
    var view := ['&'] + (VIEW + PrintNat(id)) + "";
    assert view == "&" + VIEW + PrintNat(id);
    var rest := "?" + (DTAB + slug + view);
    assert "/d/" + uid + "?" + DTAB + slug + "&" + VIEW + PrintNat(id) == ("/d/" + uid) + rest;
    ClosedSkipped("/d/" + uid, rest);
    assert rest[1..] == (DTAB + slug) + view && rest[1] == 'd';
    assert StartsWith(rest[1..], DTAB);
    ClosedSkipped(DTAB + slug, view);
    ViewRead('&', id, "");
  }

  /** What a drill-down link carries on: the time range and the variables. */
  const FROM := "from=${__from}"
  const TO := "to=${__to}"
  const VARIABLES := "${__all_variables}"

  function Carried(): (s: string)
    ensures s != "" && s[0] == '&'
  {
    ['&'] + FROM + (['&'] + TO + (['&'] + VARIABLES + ""))
  }

  lemma CarriedHasNoTab()
    ensures !HasDtab(Carried())
  {
    hide HasDtab;
    ClosedNoTab("");
    NoTabInFront(VARIABLES, "");
    NoTabInFront(TO, ['&'] + VARIABLES + "");
    NoTabInFront(FROM, ['&'] + TO + (['&'] + VARIABLES + ""));
  }

  /** A drill-down link is read as naming its panel, and no tab. */
  lemma DrillDownRead(name: string, id: nat)
    requires Closed(name)
    ensures var url := "/d/" + name + "?" + VIEW + PrintNat(id) + "&" + FROM + "&" + TO + "&" + VARIABLES;
      Target(url) == Some(id) && !HasDtab(url)
  {
    var view := ['?'] + (VIEW + PrintNat(id)) + Carried();
    assert "/d/" + name + "?" + VIEW + PrintNat(id) + "&" + FROM + "&" + TO + "&" + VARIABLES
      == ("/d/" + name) + view;
    assert Closed("/d/" + name);
    hide Carried, Target, HasDtab, Closed;
    ClosedSkipped("/d/" + name, view);
    ViewRead('?', id, Carried());
    PrintNatReads(id);
    ViewPlain(PrintNat(id));
    CarriedHasNoTab();
    NoTabInFront(VIEW + PrintNat(id), Carried());
  }

  // -------------------------------------------------------------- slugs

  /** White space as str.split() knows it. */
  predicate Splits(c: char) {
    '\t' <= c <= '\r' || '\U{1C}' <= c <= ' ' || c == '\U{85}' || c == '\U{A0}' || c == '\U{1680}'
    || '\U{2000}' <= c <= '\U{200A}' || c == '\U{2028}' || c == '\U{2029}' || c == '\U{202F}' || c == '\U{205F}'
    || c == '\U{3000}'
  }

  /** The same by code point. */
  lemma SplitCodes(c: char)
    ensures Splits(c) <==>
      || 9 <= c as int <= 13 || 28 <= c as int <= 32 || 8192 <= c as int <= 8202
      || c as int in {133, 160, 5760, 8232, 8233, 8239, 8287, 12288}
  {}

  /** Length of the word s begins with. */
  function WordLen(s: string): (n: nat)
    ensures n <= |s| && (s != "" && !Splits(s[0]) ==> n > 0)
  {
    if s != "" && !Splits(s[0]) then 1 + WordLen(s[1..]) else 0
  }

  function Words(s: string): seq<string> {
    if s == "" then []
    else if Splits(s[0]) then Words(s[1..])
    else [s[..WordLen(s)]] + Words(s[WordLen(s)..])
  }

  function Hyphenated(words: seq<string>): string {
    if words == [] then "" else if |words| == 1 then words[0] else words[0] + "-" + Hyphenated(words[1..])
  }

  /** The tab a dtab parameter names. */
  function Slug(title: string): string { Hyphenated(Words(title)) }

  predicate Solid(s: string) { forall i :: 0 <= i < |s| ==> !Splits(s[i]) }

  lemma {:induction false} WordSolid(s: string)
    ensures Solid(s[..WordLen(s)])
  {
    if s != "" && !Splits(s[0]) {
      WordSolid(s[1..]);
      assert s[..WordLen(s)] == [s[0]] + s[1..][..WordLen(s[1..])];
    }
  }

  lemma {:induction false} SolidWord(s: string)
    requires Solid(s)
    ensures WordLen(s) == |s|
  {
    if s != "" { SolidWord(s[1..]); }
  }

  lemma {:induction false} WordsSolid(s: string)
    ensures forall i :: 0 <= i < |Words(s)| ==> Solid(Words(s)[i])
  {
    if s != "" {
      if Splits(s[0]) {
        WordsSolid(s[1..]);
      } else {
        WordSolid(s);
        WordsSolid(s[WordLen(s)..]);
      }
    }
  }

  lemma {:induction false} HyphenatedSolid(words: seq<string>)
    requires forall i :: 0 <= i < |words| ==> Solid(words[i])
    ensures Solid(Hyphenated(words))
  {
    if words != [] { HyphenatedSolid(words[1..]); }
  }

  /** A text is its own slug exactly when it holds no white space, and a slug holds none: so a
      title with white space has a namesake in the title spelled like its slug. */
  lemma SlugIdle(title: string)
    ensures Slug(title) == title <==> Solid(title)
    ensures Slug(Slug(title)) == Slug(title)
  {
    WordsSolid(title);
    HyphenatedSolid(Words(title));
    SolidIsSlug(Slug(title));
    if Solid(title) { SolidIsSlug(title); }
  }

  lemma SolidIsSlug(s: string)
    requires Solid(s)
    ensures Slug(s) == s
  {
    if s != "" {
      SolidWord(s);
      assert s[..|s|] == s && s[|s|..] == "";
      assert Words(s) == [s] + [] == [s];
    }
  }

  /** The slug word by word: white space around the title goes, and what lies between two words
      becomes one hyphen. */
  lemma SlugJoins(word: string, gap: string, rest: string)
    requires word != "" && Solid(word)
    requires gap != "" && forall i :: 0 <= i < |gap| ==> Splits(gap[i])
    ensures Slug("") == "" && Slug(gap + rest) == Slug(rest)
    ensures rest != "" && !Splits(rest[0]) ==> Slug(word + gap + rest) == word + "-" + Slug(rest)
    ensures Slug(word + gap) == word
  {
    GapSkipped(gap, rest); GapSkipped(gap, "");
    assert gap + "" == gap && word + gap + "" == word + gap;
    WordFirst(word, gap + rest); WordFirst(word, gap);
    assert word + (gap + rest) == word + gap + rest;
    if rest != "" && !Splits(rest[0]) { assert Words(rest) != []; }
  }

  lemma {:induction false} GapSkipped(gap: string, rest: string)
    requires forall i :: 0 <= i < |gap| ==> Splits(gap[i])
    ensures Words(gap + rest) == Words(rest)
  {
    if gap == "" {
      assert gap + rest == rest;
    } else {
      assert (gap + rest)[1..] == gap[1..] + rest;
      GapSkipped(gap[1..], rest);
    }
  }

  lemma {:induction false} WordRuns(word: string, rest: string)
    requires Solid(word) && (rest != "" ==> Splits(rest[0]))
    ensures WordLen(word + rest) == |word|
  {
    if word == "" {
      assert word + rest == rest;
    } else {
      assert (word + rest)[1..] == word[1..] + rest;
      WordRuns(word[1..], rest);
    }
  }

  lemma WordFirst(word: string, rest: string)
    requires word != "" && Solid(word) && (rest != "" ==> Splits(rest[0]))
    ensures Words(word + rest) == [word] + Words(rest)
  {
    WordRuns(word, rest);
    assert (word + rest)[..|word|] == word && (word + rest)[|word|..] == rest;
  }

  lemma TwoTitlesOneSlug()
    ensures Slug("A B") == "A-B" && Slug("A  B") == "A-B"
  {
    OneWord('B');
    assert "A B"[1..] == " B" && " B"[1..] == "B" && "A  B"[1..] == "  B" && "  B"[1..] == " B";
    assert WordLen("A B") == 1 && WordLen("A  B") == 1 && "A B"[..1] == "A" && "A  B"[..1] == "A";
    assert Words(" B") == ["B"] && Words("  B") == ["B"];
    assert Words("A B") == ["A"] + ["B"] && Words("A  B") == ["A"] + ["B"];
    assert ["A", "B"][1..] == ["B"];
  }

  lemma OneWord(c: char)
    requires !Splits(c)
    ensures Words([c]) == [[c]]
  {
    assert [c][1..] == "" && [c][..1] == [c];
    assert WordLen([c]) == 1;
  }
}
