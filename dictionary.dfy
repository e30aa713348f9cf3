/** The three-tier dictionary: a session map in memory, a persistent store of earlier
    lookups, and the remote dictionary service, consulted in that order. The store and
    the service are modelled as a map and as a function from word to response. */
module Dictionary {
  import opened Common

  /** The parts of the remote service's JSON response that the meaning is built from;
      a missing field is `None`. */
  datatype Sense = Sense(englishDefinitions: Option<seq<string>>)
  datatype SearchResult = SearchResult(senses: Option<seq<Sense>>)
  datatype Response = RequestFailed | Response(data: Option<seq<SearchResult>>)

  /** JavaScript truthiness of a meaning: present and not the empty string. */
  predicate Truthy(m: Option<string>)
  {
    m.Some? && m.value != []
  }

  function Min(a: int, b: int): int { if a < b then a else b }

  /** The definitions the meaning is made of: the English definitions of the first sense of
      the first result, when there are results and senses and the definition list exists
      (reading a missing list throws, and the error becomes "no meaning"). */
  function FirstDefinitions(resp: Response): Option<seq<string>>
  {
    if resp.RequestFailed? || resp.data.None? || |resp.data.value| == 0 then None
    else
      var senses := resp.data.value[0].senses;
      if senses.None? || |senses.value| == 0 then None
      else senses.value[0].englishDefinitions
  }

  /** `lookupViaAPI` after the request: at most three definitions joined by ", ". */
  function RemoteMeaning(resp: Response): (r: Option<string>)
    ensures r.Some? <==> FirstDefinitions(resp).Some?
    ensures r.Some? && |FirstDefinitions(resp).value| >= 1 ==>
      var d := FirstDefinitions(resp).value;
      |r.value| >= |d[0]| && r.value[..|d[0]|] == d[0]
  {
    match FirstDefinitions(resp)
    case None => None
    case Some(defs) =>
      var taken := defs[..Min(3, |defs|)];
      JoinStartsWithFirst(taken, ", ");
      Some(Join(taken, ", "))
  }

  lemma JoinStartsWithFirst(parts: seq<string>, sep: string)
    ensures |parts| >= 1 ==> |Join(parts, sep)| >= |parts[0]| && Join(parts, sep)[..|parts[0]|] == parts[0]
  {
    if |parts| > 1 {
      assert Join(parts, sep) == parts[0] + (sep + Join(parts[1..], sep));
    }
  }

  /** Each part after the first, with `t` written in front. */
  function Prefixed(t: string, parts: seq<string>): (r: seq<string>)
    ensures |r| == |parts|
    ensures forall i :: 0 <= i < |parts| ==> r[i] == t + parts[i]
  {
    if parts == [] then [] else [t + parts[0]] + Prefixed(t, parts[1..])
  }

  lemma PrependToJoin(t: string, parts: seq<string>, sep: string)
    requires |parts| >= 1
    ensures t + Join(parts, sep) == Join([t + parts[0]] + parts[1..], sep)
  {
    var q := [t + parts[0]] + parts[1..];
    assert q[0] == t + parts[0] && q[1..] == parts[1..];
    if |parts| > 1 {
      assert t + (parts[0] + sep + Join(parts[1..], sep)) == (t + parts[0]) + sep + Join(parts[1..], sep);
    }
  }

  /** Joining with `c` followed by `t` is joining with `c` the parts prefixed by `t`. */
  lemma {:induction false} JoinRegroup(parts: seq<string>, c: char, t: string)
    requires |parts| >= 1
    ensures Join(parts, [c] + t) == Join([parts[0]] + Prefixed(t, parts[1..]), [c])
    decreases |parts|
  {
    var q := [parts[0]] + Prefixed(t, parts[1..]);
    assert q[0] == parts[0] && q[1..] == Prefixed(t, parts[1..]);
    if |parts| > 1 {
      var rest := parts[1..];
      JoinRegroup(rest, c, t);
      PrependToJoin(t, [rest[0]] + Prefixed(t, rest[1..]), [c]);
      assert [t + rest[0]] + Prefixed(t, rest[1..]) == Prefixed(t, rest);
      assert ([rest[0]] + Prefixed(t, rest[1..]))[1..] == Prefixed(t, rest[1..]);
      assert Join(parts, [c] + t) == parts[0] + ([c] + t) + Join(rest, [c] + t);
      assert Join(q, [c]) == parts[0] + [c] + Join(Prefixed(t, rest), [c]);
    } else {
      assert q == [parts[0]];
    }
  }

  /** When no definition contains a comma, splitting the meaning at commas gives back the
      definitions taken, each but the first with the space of the separator in front. */
  lemma RemoteMeaningSplitsBack(resp: Response)
    requires FirstDefinitions(resp).Some? && |FirstDefinitions(resp).value| >= 1
    requires forall i :: 0 <= i < Min(3, |FirstDefinitions(resp).value|) ==> ',' !in FirstDefinitions(resp).value[i]
    ensures var defs := FirstDefinitions(resp).value;
      var parts := SplitOn(RemoteMeaning(resp).value, ',');
      |parts| == Min(3, |defs|) && parts[0] == defs[0]
      && forall i :: 1 <= i < |parts| ==> parts[i] == " " + defs[i]
  {
    var defs := FirstDefinitions(resp).value;
    var taken := defs[..Min(3, |defs|)];
    JoinRegroup(taken, ',', " ");
    var q := [taken[0]] + Prefixed(" ", taken[1..]);
    assert ", " == [','] + " ";
    forall k | 0 <= k < |q|
      ensures ',' !in q[k]
    {
      if k > 0 {
        assert q[k] == " " + taken[k];
      }
    }
    SplitOnJoin(q, ',');
  }

  /** What one lookup returns and what the two caches hold afterwards. */
  datatype Outcome = Outcome(meaning: Option<string>, session: map<string, string>, store: map<string, string>)

  /** `saveToCache`: insert, or nothing when the word is already stored (the duplicate-key
      error is swallowed). */
  function Saved(store: map<string, string>, word: string, meaning: string): (r: map<string, string>)
    ensures word in r && r[word] == (if word in store then store[word] else meaning)
    ensures forall k :: k in store ==> k in r && r[k] == store[k]
    ensures forall k :: k in r ==> k in store || k == word
  {
    if word in store then store else store[word := meaning]
  }

  /** `lookup` with the caches as values: `storeUp` false means the store query throws,
      and the error becomes "no meaning"; `response` is what the service would answer. */
  function LookupOutcome(session: map<string, string>, store: map<string, string>, word: string,
                         response: Response, storeUp: bool): Outcome
  {
    if word in session then Outcome(Some(session[word]), session, store)
    else if !storeUp then Outcome(None, session, store)
    else if word in store then Outcome(Some(store[word]), session[word := store[word]], store)
    else
      var meaning := RemoteMeaning(response);
      if Truthy(meaning) then Outcome(meaning, session[word := meaning.value], Saved(store, word, meaning.value))
      else Outcome(meaning, session, store)
  }

  /** A session hit returns the cached meaning whatever the store and the service would
      have said, and changes nothing. */
  lemma SessionHit(session: map<string, string>, store: map<string, string>, word: string,
                   response: Response, storeUp: bool, otherStore: map<string, string>,
                   otherResponse: Response, otherUp: bool)
    requires word in session
    ensures LookupOutcome(session, store, word, response, storeUp) == Outcome(Some(session[word]), session, store)
    ensures LookupOutcome(session, store, word, response, storeUp).meaning
         == LookupOutcome(session, otherStore, word, otherResponse, otherUp).meaning
  {
  }

  /** A store hit copies the meaning into the session and never asks the service. */
  lemma StoreHit(session: map<string, string>, store: map<string, string>, word: string,
                 response: Response, otherResponse: Response)
    requires word !in session && word in store
    ensures var o := LookupOutcome(session, store, word, response, true);
      o == Outcome(Some(store[word]), session[word := store[word]], store)
      && o == LookupOutcome(session, store, word, otherResponse, true)
  {
  }

  /** Past both caches the service decides: a truthy meaning is written to the store and
      then the session; anything else leaves both caches as they were. */
  lemma RemoteLookup(session: map<string, string>, store: map<string, string>, word: string, response: Response)
    requires word !in session && word !in store
    ensures var o := LookupOutcome(session, store, word, response, true);
      o.meaning == RemoteMeaning(response)
      && (Truthy(o.meaning) ==> o.session == session[word := o.meaning.value]
                                && o.store == store[word := o.meaning.value])
      && (!Truthy(o.meaning) ==> o.session == session && o.store == store)
  {
  }

  /** A failing store query means no meaning and no change. */
  lemma StoreDown(session: map<string, string>, store: map<string, string>, word: string, response: Response)
    requires word !in session
    ensures LookupOutcome(session, store, word, response, false) == Outcome(None, session, store)
  {
  }

  /** Caches only grow, only at the word looked up, and a truthy answer is then in the
      session, so an immediate repeat lookup gives the same answer. */
  lemma LookupCaches(session: map<string, string>, store: map<string, string>, word: string,
                     response: Response, storeUp: bool, again: Response, againUp: bool)
    ensures var o := LookupOutcome(session, store, word, response, storeUp);
      (forall k :: k in session ==> k in o.session && o.session[k] == session[k])
      && (forall k :: k in store ==> k in o.store && o.store[k] == store[k])
      && (forall k :: k in o.session && k !in session ==> k == word)
      && (Truthy(o.meaning) <==> word in o.session && o.session[word] != [])
      && (Truthy(o.meaning) ==> (o.session[word] == o.meaning.value
                                 && LookupOutcome(o.session, o.store, word, again, againUp).meaning == o.meaning))
  {
  }

  /** What looking `w` up would return against these caches, the service and the store's
      availability for `w`. */
  function Answer(session: map<string, string>, store: map<string, string>, w: string,
                  service: string -> Response, storeUp: string -> bool): Option<string>
  {
    LookupOutcome(session, store, w, service(w), storeUp(w)).meaning
  }

  /** A lookup changes no word's answer: other words' cache entries are untouched, and the
      word itself gets the same answer again. So a sequence of lookups gives each word the
      answer it would have had against the caches the sequence started from. */
  lemma LookupKeepsAnswers(session: map<string, string>, store: map<string, string>, word: string,
                           service: string -> Response, storeUp: string -> bool)
    ensures var o := LookupOutcome(session, store, word, service(word), storeUp(word));
      forall w :: Answer(o.session, o.store, w, service, storeUp) == Answer(session, store, w, service, storeUp)
  {
    var o := LookupOutcome(session, store, word, service(word), storeUp(word));
    forall w
      ensures Answer(o.session, o.store, w, service, storeUp) == Answer(session, store, w, service, storeUp)
    {
      if w != word {
        assert (w in o.session <==> w in session) && (w in session ==> o.session[w] == session[w]);
        assert (w in o.store <==> w in store) && (w in store ==> o.store[w] == store[w]);
      }
    }
  }

    /** The words of `words` with a truthy meaning in `session`, and that meaning. */
  function Hits(words: seq<string>, session: map<string, string>): map<string, string>
  {
    map w | w in words && w in session && session[w] != [] :: session[w]
  }

  /** One more lookup in a batch: the hits gain the word exactly when its meaning is truthy. */
  lemma HitsStep(words: seq<string>, word: string, session: map<string, string>,
                 session': map<string, string>, meaning: Option<string>)
    requires forall k :: k in session ==> k in session' && session'[k] == session[k]
    requires forall k :: k in session' && k !in session ==> k == word
    requires Truthy(meaning) <==> word in session' && session'[word] != []
    requires Truthy(meaning) ==> session'[word] == meaning.value
    ensures Hits(words + [word], session')
         == if Truthy(meaning) then Hits(words, session)[word := meaning.value] else Hits(words, session)
  {
    assert forall w :: w in words + [word] <==> w in words || w == word;
  }

  /** The module-level caches and the initialization flag. */
  class Dictionary {
    var session: map<string, string>
    var store: map<string, string>
    var initialized: bool

    /** A fresh process: empty session cache, the store as persisted. */
    constructor(persisted: map<string, string>)
      ensures session == map[] && store == persisted && !initialized
    {
      session := map[];
      store := persisted;
      initialized := false;
    }

    /** `initialize`: only sets the flag, once. */
    method Initialize()
      modifies this
      ensures initialized && session == old(session) && store == old(store)
    {
      if initialized {
        return;
      }
      initialized := true;
    }

    /** `saveToCache` */
    method SaveToCache(word: string, meaning: string)
      modifies this
      ensures store == Saved(old(store), word, meaning)
      ensures session == old(session) && initialized == old(initialized)
    {
      if word !in store {
        store := store[word := meaning];
      }
    }

    /** `lookup`: session cache, then store, then service. */
    method Lookup(word: string, service: string -> Response, storeUp: bool) returns (meaning: Option<string>)
      modifies this
      ensures initialized
      ensures Outcome(meaning, session, store) == LookupOutcome(old(session), old(store), word, service(word), storeUp)
    {
      Initialize();
      if word in session {
        return Some(session[word]);
      }
      if !storeUp {
        return None;
      }
      if word in store {
        session := session[word := store[word]];
        return Some(store[word]);
      }
      meaning := RemoteMeaning(service(word));
      if Truthy(meaning) {
        SaveToCache(word, meaning.value);
        session := session[word := meaning.value];
      }
    }

    /** `lookupBatch`: exactly the words whose lookup gives a truthy meaning, each with that
        meaning, which is also what the session cache ends up holding for them. Each
        word's meaning is the one a lookup against the caches before the batch gives. */
    method LookupBatch(words: seq<string>, service: string -> Response, storeUp: string -> bool)
      returns (results: map<string, string>)
      modifies this
      ensures initialized
      ensures forall w :: w in results <==>
        w in words && Truthy(Answer(old(session), old(store), w, service, storeUp))
      ensures forall w :: w in results ==>
        Truthy(Answer(old(session), old(store), w, service, storeUp))
        && results[w] == Answer(old(session), old(store), w, service, storeUp).value
      ensures results == Hits(words, session)
      ensures forall k :: k in old(session) ==> k in session && session[k] == old(session)[k]
    {
      Initialize();
      results := map[];
      for i := 0 to |words|
        invariant initialized
        invariant forall w :: Answer(session, store, w, service, storeUp) == Answer(old(session), old(store), w, service, storeUp)
        invariant forall w :: w in results <==>
          w in words[..i] && Truthy(Answer(old(session), old(store), w, service, storeUp))
        invariant forall w :: w in results ==> results[w] == Answer(old(session), old(store), w, service, storeUp).value
        invariant results == Hits(words[..i], session)
        invariant forall k :: k in old(session) ==> k in session && session[k] == old(session)[k]
      {
        ghost var sessionBefore, storeBefore := session, store;
        var word := words[i];
        var meaning := Lookup(word, service, storeUp(word));
        assert meaning == Answer(old(session), old(store), word, service, storeUp);
        LookupKeepsAnswers(sessionBefore, storeBefore, word, service, storeUp);
        LookupCaches(sessionBefore, storeBefore, word, service(word), storeUp(word), service(word), storeUp(word));
        HitsStep(words[..i], word, sessionBefore, session, meaning);
        if Truthy(meaning) {
          results := results[word := meaning.value];
        }
        assert words[..i + 1] == words[..i] + [word];
      }
      assert words[..|words|] == words;
    }
  }
}
