/** Session preferences: canonical form, compatibility and pair scoring. Text is ASCII. */
module Preferences {
  import opened Basics

  datatype Preferences = Preferences(intent: string, languages: seq<string>, interests: seq<string>)

  const INTENTS := {
    "surprise_me", "new_friends", "dating", "gaming", "language_exchange", "tech_ideas", "professional_networking"
  }
  const INTERESTS := {
    "ai", "art", "books", "films", "fitness", "gaming", "music", "nature", "photography", "science", "technology",
    "travel"
  }
  const SURPRISE := "surprise_me"
  const DATING := "dating"

  // ---- text ----

  predicate IsSpace(c: char) { c == ' ' || '\t' <= c <= '\r' }

  predicate IsLower(c: char) { 'a' <= c <= 'z' }

  predicate IsUpper(c: char) { 'A' <= c <= 'Z' }

  function Lower(s: string): string {
    seq(|s|, i requires 0 <= i < |s| => if IsUpper(s[i]) then s[i] + 32 as char else s[i])
  }

  function TrimLeft(s: string): string {
    if s != [] && IsSpace(s[0]) then TrimLeft(s[1..]) else s
  }

  function TrimRight(s: string): string {
    if s != [] && IsSpace(s[|s| - 1]) then TrimRight(s[..|s| - 1]) else s
  }

  function Trim(s: string): string { TrimRight(TrimLeft(s)) }

  /** ^[a-z]{2,3}(?:-[A-Z]{2})?$ */
  predicate IsLanguage(s: string) { IsTag(s, 2) || IsTag(s, 3) }

  /** `k` lower-case letters, then nothing or a region. */
  predicate IsTag(s: string, k: nat) {
    && k <= |s|
    && (forall i | 0 <= i < k :: IsLower(s[i]))
    && (|s| == k || (|s| == k + 3 && s[k] == '-' && IsUpper(s[k + 1]) && IsUpper(s[k + 2])))
  }

  // ---- ascending text ----

  predicate Leq(a: string, b: string) {
    a == [] || (b != [] && (a[0] < b[0] || (a[0] == b[0] && Leq(a[1..], b[1..]))))
  }

  lemma LeqTotal(a: string, b: string)
    ensures Leq(a, b) || Leq(b, a)
  {}

  lemma LeqAntisymmetric(a: string, b: string)
    requires Leq(a, b) && Leq(b, a)
    ensures a == b
  {
    if a != [] {
      LeqAntisymmetric(a[1..], b[1..]);
      assert a == [a[0]] + a[1..] && b == [b[0]] + b[1..];
    }
  }

  lemma LeqTransitive(a: string, b: string, c: string)
    requires Leq(a, b) && Leq(b, c)
    ensures Leq(a, c)
  {}

  /** Sorted by every pair, so that membership facts need no induction. */
  predicate Sorted(s: seq<string>) {
    forall i, j | 0 <= i < j < |s| :: Leq(s[i], s[j])
  }

  predicate Distinct<T(==)>(s: seq<T>) {
    forall i, j | 0 <= i < j < |s| :: s[i] != s[j]
  }

  function Insert(x: string, s: seq<string>): (r: seq<string>)
    requires Sorted(s)
    ensures Sorted(r)
    ensures multiset(r) == multiset(s) + multiset{x}
    ensures forall y :: y in r <==> y == x || y in s
  {
    if s == [] then [x]
    else if Leq(x, s[0]) then
      assert forall j | 0 < j < |s| :: Leq(x, s[j]) by {
        forall j | 0 < j < |s| ensures Leq(x, s[j]) { LeqTransitive(x, s[0], s[j]); }
      }
      [x] + s
    else
      LeqTotal(x, s[0]);
      assert s == [s[0]] + s[1..];
      var rest := Insert(x, s[1..]);
      assert forall j | 0 <= j < |rest| :: Leq(s[0], rest[j]) by {
        forall j | 0 <= j < |rest| ensures Leq(s[0], rest[j]) { assert rest[j] in rest; }
      }
      [s[0]] + rest
  }

  /** sort.Strings. */
  function Sort(s: seq<string>): (r: seq<string>)
    ensures Sorted(r)
    ensures multiset(r) == multiset(s)
    ensures forall y :: y in r <==> y in s
  {
    if s == [] then []
    else
      assert s == [s[0]] + s[1..];
      Insert(s[0], Sort(s[1..]))
  }

  lemma {:induction false} SortKeepsDistinct(s: seq<string>)
    requires Distinct(s)
    ensures Distinct(Sort(s))
  {
    var r := Sort(s);
    forall i, j | 0 <= i < j < |r| ensures r[i] != r[j] {
      if r[i] == r[j] {
        MultiplicityOfPair(r, i, j);
        MultiplicityOfDistinct(s, r[i]);
      }
    }
  }

  lemma MultiplicityOfPair<T>(s: seq<T>, i: nat, j: nat)
    requires i < j < |s| && s[i] == s[j]
    ensures multiset(s)[s[i]] >= 2
  {
    assert s == s[..i] + [s[i]] + s[i + 1..j] + [s[j]] + s[j + 1..];
  }

  lemma {:induction false} MultiplicityOfDistinct<T>(s: seq<T>, x: T)
    requires Distinct(s)
    ensures multiset(s)[x] <= 1
  {
    if s != [] {
      assert s == [s[0]] + s[1..];
      MultiplicityOfDistinct(s[1..], x);
      assert s[0] !in s[1..];
    }
  }

  /** A strictly ascending list is determined by its members. */
  lemma {:induction false} AscendingListIsItsSet(s: seq<string>, t: seq<string>)
    requires Sorted(s) && Distinct(s) && Sorted(t) && Distinct(t)
    requires forall x :: x in s <==> x in t
    ensures s == t
  {
    assert s != [] ==> s[0] in t;
    assert t != [] ==> t[0] in s;
    if s != [] && t != [] {
      assert s[0] == t[0] by {
        assert s[0] in t && t[0] in s;
        if s[0] != t[0] { LeqAntisymmetric(s[0], t[0]); }
      }
      assert s == [s[0]] + s[1..] && t == [t[0]] + t[1..];
      assert s[0] !in s[1..] && t[0] !in t[1..];
      forall x ensures x in s[1..] <==> x in t[1..] {
        assert x in s <==> x == s[0] || x in s[1..];
        assert x in t <==> x == t[0] || x in t[1..];
      }
      AscendingListIsItsSet(s[1..], t[1..]);
    }
  }

  // ---- normalisation ----

  function NormalLanguage(item: string): Option<string> {
    var t := Trim(item);
    if IsLanguage(t) then Some(t) else None
  }

  function NormalInterest(item: string): Option<string> {
    var t := Trim(Lower(item));
    if t in INTERESTS then Some(t) else None
  }

  predicate AllValid(values: seq<string>, normalize: string -> Option<string>) {
    forall v | v in values :: normalize(v).Some?
  }

  ghost predicate IsImage(result: seq<string>, values: seq<string>, normalize: string -> Option<string>) {
    forall x :: x in result <==> exists v :: v in values && normalize(v) == Some(x)
  }

  /** Normalise every item, drop repeats, sort; fails on the first invalid item. */
  method Unique(values: seq<string>, normalize: string -> Option<string>) returns (r: Option<seq<string>>)
    ensures r.Some? <==> AllValid(values, normalize)
    ensures r.Some? ==> Sorted(r.value) && Distinct(r.value) && IsImage(r.value, values, normalize)
    ensures r.Some? ==> |r.value| <= |values|
  {
    var seen: set<string> := {};
    var result: seq<string> := [];
    for i := 0 to |values|
      invariant forall k | 0 <= k < i :: normalize(values[k]).Some?
      invariant forall x :: x in seen <==> x in result
      invariant forall x :: x in result <==> exists k :: 0 <= k < i && normalize(values[k]) == Some(x)
      invariant Distinct(result) && |result| <= i
    {
      var item := normalize(values[i]);
      if item.None? { return None; }
      if item.value !in seen {
        seen := seen + {item.value};
        result := result + [item.value];
      }
    }
    SortKeepsDistinct(result);
    assert |Sort(result)| == |multiset(Sort(result))| == |multiset(result)| == |result|;
    return Some(Sort(result));
  }

  /** The canonical form: what a second normalisation must leave alone. */
  predicate Canonical(p: Preferences) {
    && p.intent in INTENTS
    && 1 <= |p.languages| <= 5 && |p.interests| <= 12
    && (forall l | l in p.languages :: IsLanguage(l))
    && (forall i | i in p.interests :: i in INTERESTS)
    && Sorted(p.languages) && Distinct(p.languages)
    && Sorted(p.interests) && Distinct(p.interests)
  }

  /** When the request is accepted at all. */
  predicate Acceptable(p: Preferences) {
    && Trim(Lower(p.intent)) in INTENTS
    && 1 <= |p.languages| <= 5 && |p.interests| <= 12
    && AllValid(p.languages, NormalLanguage)
    && AllValid(p.interests, NormalInterest)
  }

  method NormalizePreferences(p: Preferences) returns (r: Option<Preferences>)
    ensures r.Some? <==> Acceptable(p)
    ensures r.Some? ==> Canonical(r.value)
    ensures r.Some? ==> r.value.intent == Trim(Lower(p.intent))
    ensures r.Some? ==> IsImage(r.value.languages, p.languages, NormalLanguage)
    ensures r.Some? ==> IsImage(r.value.interests, p.interests, NormalInterest)
    ensures Canonical(p) ==> r == Some(p)
  {
    var value := p.(intent := Trim(Lower(p.intent)));
    if Canonical(p) { CanonicalIsFixed(p); }
    if value.intent !in INTENTS || |value.languages| == 0 || |value.languages| > 5 || |value.interests| > 12 {
      return None;
    }
    var languages := Unique(value.languages, NormalLanguage);
    if languages.None? { return None; }
    var interests := Unique(value.interests, NormalInterest);
    if interests.None? { return None; }
    assert languages.value != [] by {
      assert value.languages[0] in value.languages;
      assert NormalLanguage(value.languages[0]).value in languages.value;
    }
    value := value.(languages := languages.value, interests := interests.value);
    if Canonical(p) {
      AscendingListIsItsSet(value.languages, p.languages);
      AscendingListIsItsSet(value.interests, p.interests);
    }
    return Some(value);
  }

  lemma TrimOfTight(s: string)
    requires s != [] ==> !IsSpace(s[0]) && !IsSpace(s[|s| - 1])
    ensures Trim(s) == s
  {}

  lemma LowerOfLower(s: string)
    requires forall i | 0 <= i < |s| :: !IsUpper(s[i])
    ensures Lower(s) == s
  {}

  /** Only blanks and line breaks. */
  predicate Blank(s: string) { forall i | 0 <= i < |s| :: IsBlank(s[i]) }

  predicate IsBlank(c: char) { c as int in {9, 10, 11, 12, 13, 32} }

  /** Neither end is blank. */
  predicate Tight(s: string) { s != "" ==> !IsBlank(s[0]) && !IsBlank(s[|s| - 1]) }

  lemma {:induction false} TrimLeftOfPadded(pre: string, s: string)
    requires Blank(pre) && (s != "" ==> !IsBlank(s[0]))
    ensures TrimLeft(pre + s) == s
  {
    if pre == "" {
      assert pre + s == s;
    } else {
      assert (pre + s)[1..] == pre[1..] + s;
      TrimLeftOfPadded(pre[1..], s);
    }
  }

  lemma {:induction false} TrimRightOfPadded(s: string, post: string)
    requires Blank(post) && (s != "" ==> !IsBlank(s[|s| - 1]))
    ensures TrimRight(s + post) == s
  {
    if post == "" {
      assert s + post == s;
    } else {
      var n := |post| - 1;
      assert (s + post)[..|s + post| - 1] == s + post[..n];
      TrimRightOfPadded(s, post[..n]);
    }
  }

  /** What is between the blanks is what trimming leaves. */
  lemma TrimOfPadded(pre: string, s: string, post: string)
    requires Blank(pre) && Tight(s) && Blank(post)
    ensures Trim(pre + s + post) == s
  {
    assert pre + s + post == pre + (s + post);
    if s == "" {
      assert pre + s + post == (pre + post) + "" && Blank(pre + post);
      TrimLeftOfPadded(pre + post, "");
    } else {
      assert (s + post)[0] == s[0];
      TrimLeftOfPadded(pre, s + post);
      TrimRightOfPadded(s, post);
    }
  }

  lemma {:induction false} TrimLeftKeeps(s: string) returns (pre: string)
    ensures s == pre + TrimLeft(s) && Blank(pre) && (TrimLeft(s) != "" ==> !IsBlank(TrimLeft(s)[0]))
  {
    if s != "" && IsSpace(s[0]) {
      var rest := TrimLeftKeeps(s[1..]);
      pre := [s[0]] + rest;
    } else {
      pre := "";
    }
  }

  lemma {:induction false} TrimRightKeeps(s: string) returns (post: string)
    ensures s == TrimRight(s) + post && Blank(post)
    ensures TrimRight(s) != "" ==> !IsBlank(TrimRight(s)[|TrimRight(s)| - 1]) && s != "" && TrimRight(s)[0] == s[0]
  {
    if s != "" && IsSpace(s[|s| - 1]) {
      var rest := TrimRightKeeps(s[..|s| - 1]);
      post := rest + [s[|s| - 1]];
    } else {
      post := "";
    }
  }

  lemma TrimLeavesTight(s: string) returns (pre: string, post: string)
    ensures s == pre + Trim(s) + post && Blank(pre) && Tight(Trim(s)) && Blank(post)
  {
    pre := TrimLeftKeeps(s);
    post := TrimRightKeeps(TrimLeft(s));
    assert s == pre + (Trim(s) + post);
  }

  /** Two or three small letters, alone or with a dash and two capitals. */
  predicate LanguageShape(s: string) {
    var k := if |s| <= 3 then |s| else |s| - 3;
    && k in {2, 3} && (forall i | 0 <= i < k :: 'a' <= s[i] <= 'z')
    && (k < |s| ==> s[k] == '-' && 'A' <= s[k + 1] <= 'Z' && 'A' <= s[k + 2] <= 'Z')
  }

  /** A language counts exactly when it has that shape between blanks, and counts as what is there. */
  lemma LanguageIsNormal(item: string, l: string)
    ensures NormalLanguage(item) == Some(l) <==>
      LanguageShape(l) && exists pre, post :: Blank(pre) && Blank(post) && item == pre + l + post
  {
    var a, b := TrimLeavesTight(item);
    hide Trim;
    if exists pre, post :: LanguageShape(l) && Blank(pre) && Blank(post) && item == pre + l + post {
      var pre, post :| LanguageShape(l) && Blank(pre) && Blank(post) && item == pre + l + post;
      TrimOfPadded(pre, l, post);
    }
    assert IsLanguage(Trim(item)) <==> LanguageShape(Trim(item));
  }

  /** An interest counts exactly when it is one of the twelve between blanks, in whatever case. */
  lemma InterestIsNormal(item: string, x: string)
    ensures NormalInterest(item) == Some(x) <==>
      x in INTERESTS && exists pre, post :: Blank(pre) && Blank(post) && Lower(item) == pre + x + post
  {
    var a, b := TrimLeavesTight(Lower(item));
    hide Trim, Lower;
    if exists pre, post :: x in INTERESTS && Blank(pre) && Blank(post) && Lower(item) == pre + x + post {
      var pre, post :| x in INTERESTS && Blank(pre) && Blank(post) && Lower(item) == pre + x + post;
      InterestIsWord(x);
      TrimOfPadded(pre, x, post);
    }
  }

  /** Letter by letter, capitals become small and everything else stays. */
  lemma LowerAt(s: string, i: nat)
    requires i < |s|
    ensures |Lower(s)| == |s|
    ensures Lower(s)[i] == if 'A' <= s[i] <= 'Z' then s[i] - 'A' + 'a' else s[i]
  {}

  /** Small letters and underscores only. */
  predicate IsWord(w: string) {
    w != "" && forall i | 0 <= i < |w| :: IsLower(w[i]) || w[i] == '_'
  }

  lemma IntentIsWord(w: string)
    requires w in INTENTS
    ensures IsWord(w)
  {}

  lemma InterestIsWord(w: string)
    requires w in INTERESTS
    ensures IsWord(w)
  {}

  lemma WordIsFixed(w: string)
    requires IsWord(w)
    ensures Trim(Lower(w)) == w
  {
    hide Lower, Trim;
    LowerOfLower(w);
    TrimOfTight(w);
  }

  lemma CanonicalIsFixed(p: Preferences)
    requires Canonical(p)
    ensures Acceptable(p) && Trim(Lower(p.intent)) == p.intent
    ensures forall l | l in p.languages :: NormalLanguage(l) == Some(l)
    ensures forall i | i in p.interests :: NormalInterest(i) == Some(i)
  {
    hide Lower, Trim, IsWord;
    IntentIsWord(p.intent);
    WordIsFixed(p.intent);
    forall l | l in p.languages ensures NormalLanguage(l) == Some(l) { TrimOfTight(l); }
    forall i | i in p.interests ensures NormalInterest(i) == Some(i) { InterestIsWord(i); WordIsFixed(i); }
  }

  /** Two accepted requests with the same items, in any order and multiplicity, have one
      canonical form. (Acceptance itself counts repeats: six languages are refused even
      when two of them are equal.) */
  lemma CanonicalFormDependsOnItems(p: Preferences, q: Preferences, np: Preferences, nq: Preferences)
    requires Canonical(np) && Canonical(nq)
    requires np.intent == Trim(Lower(p.intent)) && nq.intent == Trim(Lower(q.intent))
    requires IsImage(np.languages, p.languages, NormalLanguage) && IsImage(nq.languages, q.languages, NormalLanguage)
    requires IsImage(np.interests, p.interests, NormalInterest) && IsImage(nq.interests, q.interests, NormalInterest)
    requires p.intent == q.intent
    requires forall x :: x in p.languages <==> x in q.languages
    requires forall x :: x in p.interests <==> x in q.interests
    ensures np == nq
  {
    AscendingListIsItsSet(np.languages, nq.languages);
    AscendingListIsItsSet(np.interests, nq.interests);
  }

  // ---- pairs ----

  predicate IntentsAgree(a: string, b: string) {
    a == b || (a == SURPRISE && b != DATING) || (b == SURPRISE && a != DATING)
  }

  predicate Compatible(a: Preferences, b: Preferences) {
    IntentsAgree(a.intent, b.intent) && exists l :: l in a.languages && l in b.languages
  }

  function ResolvedIntent(first: string, second: string): string {
    if first == SURPRISE then second else first
  }

  function Filter(a: seq<string>, b: seq<string>): (r: seq<string>)
    ensures forall x :: x in r <==> x in a && x in b
  {
    if b == [] then []
    else
      assert b == [b[0]] + b[1..];
      (if b[0] in a then [b[0]] else []) + Filter(a, b[1..])
  }

  function SharedInterests(a: seq<string>, b: seq<string>): seq<string> {
    Sort(Filter(a, b))
  }

  lemma {:induction false} FilterKeepsDistinct(a: seq<string>, b: seq<string>)
    requires Distinct(b)
    ensures Distinct(Filter(a, b))
  {
    if b != [] {
      assert b == [b[0]] + b[1..];
      FilterKeepsDistinct(a, b[1..]);
      assert b[0] !in b[1..];
      assert b[0] !in Filter(a, b[1..]);
    }
  }

  /** Both members of a pair see the same shared interests. */
  lemma SharedInterestsSymmetric(a: Preferences, b: Preferences)
    requires Canonical(a) && Canonical(b)
    ensures SharedInterests(a.interests, b.interests) == SharedInterests(b.interests, a.interests)
    ensures forall x :: x in SharedInterests(a.interests, b.interests) <==> x in a.interests && x in b.interests
  {
    FilterKeepsDistinct(a.interests, b.interests);
    FilterKeepsDistinct(b.interests, a.interests);
    SortKeepsDistinct(Filter(a.interests, b.interests));
    SortKeepsDistinct(Filter(b.interests, a.interests));
    AscendingListIsItsSet(SharedInterests(a.interests, b.interests), SharedInterests(b.interests, a.interests));
  }

  function Items(s: seq<string>): set<string> { set x | x in s }

  /** What a pair needs: a language in common, and one intent or an open mind, which dating excludes. */
  predicate Suits(a: Preferences, b: Preferences) {
    && Items(a.languages) * Items(b.languages) != {}
    && (a.intent == b.intent || ("surprise_me" in {a.intent, b.intent} && "dating" !in {a.intent, b.intent}))
  }

  /** Exactly such pairs are compatible. */
  lemma CompatibleExactlyWhenSuited(a: Preferences, b: Preferences)
    ensures Compatible(a, b) <==> Suits(a, b)
  {
    var both := Items(a.languages) * Items(b.languages);
    if Compatible(a, b) {
      var l :| l in a.languages && l in b.languages;
      assert l in both;
    }
    if both != {} {
      var l :| l in both;
      assert l in a.languages && l in b.languages;
    }
  }

  /** The intent of the match is the one that is not "surprise_me", if there is one. */
  lemma IntentOfPair(a: Preferences, b: Preferences)
    requires Suits(a, b)
    ensures var asked := {a.intent, b.intent} - {"surprise_me"};
      {ResolvedIntent(a.intent, b.intent)} == if asked == {} then {"surprise_me"} else asked
  {
    var asked := {a.intent, b.intent} - {"surprise_me"};
    if a.intent == "surprise_me" && b.intent != "surprise_me" { assert b.intent in asked; }
    if a.intent != "surprise_me" { assert a.intent in asked; }
  }

  lemma SuitsEitherWay(a: Preferences, b: Preferences)
    ensures Suits(a, b) <==> Suits(b, a)
  {
    assert Items(a.languages) * Items(b.languages) == Items(b.languages) * Items(a.languages) && {a.intent, b.intent} == {b.intent, a.intent};
  }

  /** Suiting and the intent of the match do not depend on who asks; a private "dating" choice is
      matched only with another one. */
  lemma PairIsSymmetric(a: Preferences, b: Preferences)
    ensures Compatible(a, b) <==> Suits(a, b)
    ensures Compatible(b, a) <==> Suits(a, b)
    ensures Suits(a, b) ==> ResolvedIntent(a.intent, b.intent) == ResolvedIntent(b.intent, a.intent)
    ensures Suits(a, b) ==> (ResolvedIntent(a.intent, b.intent) == "dating" <==> a.intent == "dating" && b.intent == "dating")
    ensures Suits(a, b) && a.intent == "dating" ==> b.intent == "dating"
  {
    CompatibleExactlyWhenSuited(a, b);
    CompatibleExactlyWhenSuited(b, a);
    SuitsEitherWay(a, b);
    if Suits(a, b) {
      IntentOfPair(a, b);
      IntentOfPair(b, a);
      assert {a.intent, b.intent} == {b.intent, a.intent};
      assert ResolvedIntent(a.intent, b.intent) in {ResolvedIntent(b.intent, a.intent)};
    }
  }

  // ---- how many interests are shared ----

  lemma ItemsOfFirst(b: seq<string>)
    requires b != []
    ensures Items(b) == {b[0]} + Items(b[1..])
    ensures Distinct(b) ==> b[0] !in Items(b[1..]) && Distinct(b[1..])
  {
    assert b == [b[0]] + b[1..];
  }

  lemma MeetMore(a: set<string>, x: string, rest: set<string>)
    requires x !in rest
    ensures |a * ({x} + rest)| == |a * rest| + (if x in a then 1 else 0)
  {
    assert a * ({x} + rest) == if x in a then {x} + a * rest else a * rest;
  }

  lemma FilterFirst(a: seq<string>, b: seq<string>)
    requires b != []
    ensures |Filter(a, b)| == |Filter(a, b[1..])| + (if b[0] in Items(a) then 1 else 0)
  {}

  lemma {:induction false} DistinctCounts(a: seq<string>, b: seq<string>)
    requires Distinct(b)
    ensures |Filter(a, b)| == |Items(a) * Items(b)|
  {
    if b == [] {
      assert Items(a) * Items(b) == {};
    } else {
      hide Items, Filter;
      ItemsOfFirst(b);
      DistinctCounts(a, b[1..]);
      FilterFirst(a, b);
      MeetMore(Items(a), b[0], Items(b[1..]));
    }
  }

  lemma SortKeepsLength(s: seq<string>)
    ensures |Sort(s)| == |s|
  {
    assert |multiset(Sort(s))| == |multiset(s)|;
  }

  /** For a list without repetition, as every accepted request has, the rank of a candidate counts
      the interests of both. */
  lemma SharedInterestsCount(a: seq<string>, b: seq<string>)
    requires Distinct(b)
    ensures |SharedInterests(a, b)| == |Items(a) * Items(b)|
  {
    DistinctCounts(a, b);
    SortKeepsLength(Filter(a, b));
    hide Filter, Sort, Distinct, Items;
  }
}
