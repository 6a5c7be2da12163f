/** The search filter that hides the free-gift collection: queries that mention it are
    refused, whether they arrive in the URL or through a search form, and cached search
    results are dropped from both web storages. */
module GiftSearchFilter {
  import opened Wrappers
  import opened Text

  // ---------------------------------------------------------------------------
  // The term list

  /** The phrases that name the gift collection, in English and in Arabic. */
  const GiftTerms: seq<string> := [
    "free-gifts-collection",
    "free gifts collection",
    "free gift collection",
    "free gifts",
    "gift collection",
    "\U{0645}\U{062C}\U{0645}\U{0648}\U{0639}\U{0629} \U{0627}\U{0644}\U{0647}\U{062F}\U{0627}\U{064A}\U{0627} \U{0627}\U{0644}\U{0645}\U{062C}\U{0627}\U{0646}\U{064A}\U{0629}",
    "\U{0647}\U{062F}\U{0627}\U{064A}\U{0627} \U{0645}\U{062C}\U{0627}\U{0646}\U{064A}\U{0629}"
  ]

  /** No ASCII capital letter occurs in `t`. */
  predicate NoCapitals(t: string) {
    forall i :: 0 <= i < |t| ==> !('A' <= t[i] <= 'Z')
  }

  /** A term that is already in lower case and neither starts nor ends in white space, so
      lower-casing it is the identity and trimming a query cannot cut through it. */
  predicate PlainTerm(t: string) {
    && |t| > 0 && !IsJsSpace(t[0]) && !IsJsSpace(t[|t| - 1])
    && NoCapitals(t)
  }

  lemma EnglishTermsNoCapitals()
    ensures forall k :: 0 <= k < 5 ==> NoCapitals(GiftTerms[k])
  {
  }

  lemma ArabicTermsNoCapitals()
    ensures forall k :: 5 <= k < |GiftTerms| ==> NoCapitals(GiftTerms[k])
  {
  }

  lemma GiftTermsPlain()
    ensures forall k :: 0 <= k < |GiftTerms| ==> PlainTerm(GiftTerms[k]) && ToLower(GiftTerms[k]) == GiftTerms[k]
  {
    EnglishTermsNoCapitals();
    ArabicTermsNoCapitals();
    forall k | 0 <= k < |GiftTerms|
      ensures PlainTerm(GiftTerms[k]) && ToLower(GiftTerms[k]) == GiftTerms[k]
    {
      ToLowerNoCapitals(GiftTerms[k]);
    }
  }

  // ---------------------------------------------------------------------------
  // Matching

  /** Whether the normalised query contains the lower-cased form of some term
      (`terms.some(term => q.includes(term.toLowerCase()))`). */
  function AnyTermIn(q: string, terms: seq<string>): (r: bool)
    ensures r <==> exists k :: 0 <= k < |terms| && Contains(q, ToLower(terms[k]))
  {
    if terms == [] then false
    else
      var n := |terms| - 1;
      var earlier := AnyTermIn(q, terms[..n]);
      assert forall k :: 0 <= k < n ==> terms[..n][k] == terms[k];
      earlier || Contains(q, ToLower(terms[n]))
  }

  /** `containsGiftTerms`: an absent or empty query never matches; otherwise the query is
      lower-cased and trimmed and searched for every lower-cased term. */
  function ContainsGiftTerms(query: Option<string>): (r: bool)
    ensures query.None? || query.value == "" ==> !r
    ensures r <==> query.Some? && query.value != "" &&
                   exists k :: 0 <= k < |GiftTerms| && Contains(Trim(ToLower(query.value)), ToLower(GiftTerms[k]))
  {
    if query.None? || query.value == "" then false
    else AnyTermIn(Trim(ToLower(query.value)), GiftTerms)
  }

  /** Trimming plays no part: a non-empty query matches exactly when its lower-cased form
      contains one of the listed terms as written. */
  lemma {:induction false} MatchIgnoresTrim(q: string)
    requires q != ""
    ensures ContainsGiftTerms(Some(q)) <==> exists k :: 0 <= k < |GiftTerms| && Contains(ToLower(q), GiftTerms[k])
  {
    GiftTermsPlain();
    forall k | 0 <= k < |GiftTerms|
      ensures Contains(Trim(ToLower(q)), ToLower(GiftTerms[k])) <==> Contains(ToLower(q), GiftTerms[k])
    {
      TrimPreservesContains(ToLower(q), GiftTerms[k]);
    }
  }

  /** Matching ignores case: a listed term written in any mix of upper and lower case,
      anywhere in a query, is detected. */
  lemma {:induction false} AnyCasingDetected(before: string, written: string, after: string, k: nat)
    requires k < |GiftTerms| && ToLower(written) == GiftTerms[k]
    ensures ContainsGiftTerms(Some(before + written + after))
  {
    var q := before + written + after;
    GiftTermsPlain();
    ToLowerConcat(before + written, after);
    ToLowerConcat(before, written);
    ContainsMiddle(ToLower(before), GiftTerms[k], ToLower(after));
    assert q != "" by { assert |written| == |GiftTerms[k]| > 0; }
    MatchIgnoresTrim(q);
  }

  /** Queries that only share a lower-case form are treated alike. */
  lemma SameLowerCaseSameVerdict(q1: string, q2: string)
    requires ToLower(q1) == ToLower(q2)
    ensures ContainsGiftTerms(Some(q1)) == ContainsGiftTerms(Some(q2))
  {
    assert |q1| == |ToLower(q1)| == |q2|;
  }

  // ---------------------------------------------------------------------------
  // URL searches

  /** A page address: its path and its query parameters in order. */
  datatype Url = Url(path: string, params: seq<(string, string)>)

  /** `URLSearchParams.get(name)`: the first value given for `name`. */
  function GetParam(params: seq<(string, string)>, name: string): (r: Option<string>)
    ensures r.None? <==> forall i :: 0 <= i < |params| ==> params[i].0 != name
    ensures r.Some? ==> exists i :: 0 <= i < |params| && params[i] == (name, r.value)
  {
    if params == [] then None
    else if params[0].0 == name then Some(params[0].1)
    else
      var rest := GetParam(params[1..], name);
      assert forall i :: 0 <= i < |params[1..]| ==> params[1..][i] == params[i + 1];
      rest
  }

  /** The value `get` returns is the one of the first pair named `name`. */
  lemma {:induction false} GetParamFirst(params: seq<(string, string)>, name: string)
    ensures var r := GetParam(params, name);
      r.Some? ==> exists i :: 0 <= i < |params| && params[i] == (name, r.value) &&
                             (forall j :: 0 <= j < i ==> params[j].0 != name)
    decreases |params|
  {
    if params != [] && params[0].0 != name {
      var rest := params[1..];
      GetParamFirst(rest, name);
      var r := GetParam(rest, name);
      if r.Some? {
        var i :| 0 <= i < |rest| && rest[i] == (name, r.value) && forall j :: 0 <= j < i ==> rest[j].0 != name;
        assert params[i + 1] == rest[i];
        forall j | 0 <= j < i + 1
          ensures params[j].0 != name
        {
          if j > 0 {
            assert params[j] == rest[j - 1];
          }
        }
      }
    }
  }

  /** `URLSearchParams.delete(name)`: every pair named `name` goes, the rest keep their
      order. */
  function DeleteParam(params: seq<(string, string)>, name: string): (r: seq<(string, string)>)
    ensures forall p :: p in r <==> p in params && p.0 != name
    ensures |r| <= |params|
    ensures (forall i :: 0 <= i < |params| ==> params[i].0 != name) ==> r == params
  {
    if params == [] then []
    else if params[0].0 == name then DeleteParam(params[1..], name)
    else [params[0]] + DeleteParam(params[1..], name)
  }

  /** A single pair is deleted exactly when it carries the name. */
  lemma DeleteParamSingle(p: (string, string), name: string)
    ensures DeleteParam([p], name) == if p.0 == name then [] else [p]
  {
  }

  /** Deleting from a concatenation deletes from each part; with `DeleteParamSingle` this
      fixes the result as the kept pairs in their order, repeats included. */
  lemma {:induction false} DeleteParamAppend(a: seq<(string, string)>, b: seq<(string, string)>, name: string)
    ensures DeleteParam(a + b, name) == DeleteParam(a, name) + DeleteParam(b, name)
    decreases |a|
  {
    if a == [] {
      assert a + b == b;
    } else {
      assert (a + b)[0] == a[0];
      assert (a + b)[1..] == a[1..] + b;
      DeleteParamAppend(a[1..], b, name);
    }
  }

  /** `handleDirectSearches`: the address to replace the page with, when the `q`
      parameter names the gift collection, and `None` when the page stays. */
  function DirectSearchRedirect(url: Url): (r: Option<Url>)
    ensures r.Some? <==> ContainsGiftTerms(GetParam(url.params, "q"))
    ensures r.Some? ==> r.value.path == url.path
    ensures r.Some? ==> forall p :: p in r.value.params <==> p in url.params && p.0 != "q"
    ensures r.Some? ==> GetParam(r.value.params, "q").None?
    ensures r.Some? ==> r.value == Url(url.path, DeleteParam(url.params, "q"))
  {
    var q := GetParam(url.params, "q");
    if q.Some? && ContainsGiftTerms(q) then
      var params := DeleteParam(url.params, "q");
      assert forall i :: 0 <= i < |params| ==> params[i] in params;
      Some(Url(url.path, params))
    else None
  }

  /** The address a redirect leads to is never redirected again. */
  lemma RedirectSettles(url: Url)
    requires DirectSearchRedirect(url).Some?
    ensures DirectSearchRedirect(DirectSearchRedirect(url).value).None?
  {
  }

  // ---------------------------------------------------------------------------
  // Search forms

  /** What a search form's submit handler does. */
  datatype FormOutcome = Proceed | BlockAndClear

  /** The submit handler of `interceptSearchForms`, given the form's search input value
      (`None` when the form has no such input): a query naming the gift collection is
      refused and the input emptied. */
  function InterceptSubmit(input: Option<string>): (r: FormOutcome)
    ensures r == BlockAndClear <==>
      input.Some? && input.value != "" &&
      exists k :: 0 <= k < |GiftTerms| && Contains(ToLower(input.value), GiftTerms[k])
  {
    match input
    case None => Proceed
    case Some(value) =>
      if value == "" then Proceed
      else
        MatchIgnoresTrim(value);
        if ContainsGiftTerms(input) then BlockAndClear else Proceed
  }

  // ---------------------------------------------------------------------------
  // Cached searches in web storage

  /** A storage key left by a search: it mentions `Search`, `search`, `t4s` or
      `predictive` (case matters). */
  predicate IsSearchKey(key: string) {
    Contains(key, "Search") || Contains(key, "search") || Contains(key, "t4s") || Contains(key, "predictive")
  }

  /** The search keys of `keys`, in order. */
  function SearchKeys(keys: seq<string>): (r: seq<string>)
    ensures forall k :: k in r <==> k in keys && IsSearchKey(k)
  {
    if keys == [] then []
    else
      var n := |keys| - 1;
      var earlier := SearchKeys(keys[..n]);
      assert keys == keys[..n] + [keys[n]];
      if IsSearchKey(keys[n]) then earlier + [keys[n]] else earlier
  }

  /** The keys of `keys` outside `removed`, in order. */
  function Kept(keys: seq<string>, removed: set<string>): (r: seq<string>)
    ensures forall k :: k in r <==> k in keys && k !in removed
  {
    if keys == [] then []
    else if keys[0] in removed then Kept(keys[1..], removed)
    else [keys[0]] + Kept(keys[1..], removed)
  }

  /** Removing nothing keeps everything. */
  lemma {:induction false} KeptNothing(keys: seq<string>)
    ensures Kept(keys, {}) == keys
  {
    if keys != [] {
      KeptNothing(keys[1..]);
    }
  }

  /** Removing one more key from what is kept is keeping less. */
  lemma {:induction false} KeptDrop(keys: seq<string>, removed: set<string>, key: string)
    ensures Kept(Kept(keys, removed), {key}) == Kept(keys, removed + {key})
  {
    if keys != [] {
      KeptDrop(keys[1..], removed, key);
    }
  }

  /** Only the keys that occur matter to what is kept. */
  lemma {:induction false} KeptSameOnKeys(keys: seq<string>, a: set<string>, b: set<string>)
    requires forall k :: k in keys ==> (k in a <==> k in b)
    ensures Kept(keys, a) == Kept(keys, b)
  {
    if keys != [] {
      assert forall k :: k in keys[1..] ==> k in keys;
      KeptSameOnKeys(keys[1..], a, b);
    }
  }

  /** The keys listed in `s`. */
  function Members(s: seq<string>): (r: set<string>)
    ensures forall k :: k in r <==> k in s
  {
    if s == [] then {}
    else
      var n := |s| - 1;
      assert s == s[..n] + [s[n]];
      Members(s[..n]) + {s[n]}
  }

  /** The keys of a prefix one longer are the keys of the prefix and the next one. */
  lemma {:induction false} MembersSnoc(s: seq<string>, j: nat)
    requires j < |s|
    ensures Members(s[..j + 1]) == Members(s[..j]) + {s[j]}
  {
    assert s[..j + 1][..j] == s[..j];
  }

  /** Removing one more key after a set of keys is removing the larger set. */
  lemma MinusStep(m: map<string, string>, a: set<string>, x: string)
    ensures (m - a) - {x} == m - (a + {x})
  {
  }

  /** The search keys among `keys`. */
  function SearchKeySet(keys: seq<string>): set<string> {
    set k | k in keys && IsSearchKey(k)
  }

  predicate DistinctKeys(keys: seq<string>) {
    forall i, j :: 0 <= i < j < |keys| ==> keys[i] != keys[j]
  }

  /** `sessionStorage` or `localStorage`: keys in the order `key(i)` lists them, and the
      stored values. */
  class WebStorage {
    var keys: seq<string>
    var values: map<string, string>

    ghost predicate Valid()
      reads this
    {
      DistinctKeys(keys) && forall k :: k in values <==> k in keys
    }

    constructor (keys: seq<string>, values: map<string, string>)
      requires DistinctKeys(keys) && forall k :: k in values <==> k in keys
      ensures Valid() && this.keys == keys && this.values == values
    {
      this.keys := keys;
      this.values := values;
    }

    /** The collecting loop: every search key, in the order the storage lists them.
        Nothing is removed while the keys are walked, so none is skipped. */
    method CollectSearchKeys() returns (found: seq<string>)
      requires Valid()
      ensures found == SearchKeys(keys)
    {
      found := [];
      var i := 0;
      while i < |keys|
        invariant 0 <= i <= |keys|
        invariant found == SearchKeys(keys[..i])
      {
        assert keys[..i + 1][..i] == keys[..i];
        if IsSearchKey(keys[i]) {
          found := found + [keys[i]];
        }
        i := i + 1;
      }
      assert keys[..i] == keys;
    }

    /** `removeItem(key)`. */
    method RemoveItem(key: string)
      requires Valid()
      modifies this
      ensures Valid()
      ensures keys == Kept(old(keys), {key})
      ensures values == old(values) - {key}
    {
      KeptDistinct(keys, {key});
      keys := Kept(keys, {key});
      values := values - {key};
    }

    /** The removing loop: each collected key is removed in turn. */
    method RemoveAll(found: seq<string>)
      requires Valid()
      modifies this
      ensures Valid()
      ensures keys == Kept(old(keys), Members(found))
      ensures values == old(values) - Members(found)
    {
      ghost var removed: set<string> := {};
      KeptNothing(keys);
      var j := 0;
      while j < |found|
        invariant 0 <= j <= |found|
        invariant Valid()
        invariant removed == Members(found[..j])
        invariant keys == Kept(old(keys), removed)
        invariant values == old(values) - removed
      {
        MembersSnoc(found, j);
        KeptDrop(old(keys), removed, found[j]);
        MinusStep(old(values), removed, found[j]);
        RemoveItem(found[j]);
        removed := removed + {found[j]};
        j := j + 1;
      }
      assert found[..j] == found;
    }


    /** One storage's part of `clearSearchCache`: collect the search keys, then remove
        them. Exactly the search keys go; every other entry keeps its value and its
        place. */
    method ClearSearchKeys()
      requires Valid()
      modifies this
      ensures Valid()
      ensures keys == Kept(old(keys), SearchKeySet(old(keys)))
      ensures values == old(values) - SearchKeySet(old(keys))
      ensures forall k :: k in keys <==> k in old(keys) && !IsSearchKey(k)
    {
      var found := CollectSearchKeys();
      RemoveAll(found);
      assert Members(found) == SearchKeySet(old(keys));
    }
  }

  /** Keeping part of a list of distinct keys leaves them distinct. */
  lemma {:induction false} KeptDistinct(keys: seq<string>, removed: set<string>)
    requires DistinctKeys(keys)
    ensures DistinctKeys(Kept(keys, removed))
  {
    if keys != [] {
      assert DistinctKeys(keys[1..]) by {
        forall i, j | 0 <= i < j < |keys[1..]| ensures keys[1..][i] != keys[1..][j] {
          assert keys[1..][i] == keys[i + 1] && keys[1..][j] == keys[j + 1];
        }
      }
      KeptDistinct(keys[1..], removed);
      assert keys[0] !in keys[1..];
    }
  }

  /** `clearSearchCache`: the session storage, then the local storage. */
  method ClearSearchCache(session: WebStorage, local: WebStorage)
    requires session != local && session.Valid() && local.Valid()
    modifies session, local
    ensures session.Valid() && local.Valid()
    ensures session.values == old(session.values) - SearchKeySet(old(session.keys))
    ensures local.values == old(local.values) - SearchKeySet(old(local.keys))
    ensures forall k :: k in session.values <==> k in old(session.values) && !IsSearchKey(k)
    ensures forall k :: k in local.values <==> k in old(local.values) && !IsSearchKey(k)
  {
    session.ClearSearchKeys();
    local.ClearSearchKeys();
  }
}
