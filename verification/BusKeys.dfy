/** What one layer of the bus search keeps: for each (last place, set of used places) the best
    state that was offered, whatever the order of the offers. */
module BusKeys {
  import opened Common
  import opened Ordering
  import opened BusBoarding
  import opened BusSearch
  import opened BusItinerary

  ghost predicate KeysDistinct(kept: seq<State>) {
    forall i, j :: 0 <= i < j < |kept| ==> !SameKey(kept[i], kept[j])
  }

  ghost predicate Known(q: Request, choices: seq<PlaceId>) {
    forall id :: id in choices ==> id in q.places
  }

  lemma {:induction false} UpsertKeysDistinct(kept: seq<State>, s: State)
    requires KeysDistinct(kept)
    ensures KeysDistinct(Upsert(kept, s))
  {
  }

  lemma {:induction false} ChoicesKeysDistinct(q: Request, useMinimum: bool, s: State, choices: seq<PlaceId>, n: nat, kept: seq<State>)
    requires n <= |choices| && Known(q, choices) && KeysDistinct(kept)
    ensures KeysDistinct(OfferChoices(q, useMinimum, s, choices, n, kept))
  {
    if n > 0 {
      ChoicesKeysDistinct(q, useMinimum, s, choices, n - 1, kept);
      var next := Visited(q, useMinimum, s, choices[n - 1]);
      if next.Some? {
        UpsertKeysDistinct(OfferChoices(q, useMinimum, s, choices, n - 1, kept), next.value);
      }
    }
  }

  lemma {:induction false} StatesKeysDistinct(q: Request, useMinimum: bool, states: seq<State>, n: nat, choices: seq<PlaceId>)
    requires n <= |states| && Known(q, choices)
    ensures KeysDistinct(OfferStates(q, useMinimum, states, n, choices))
  {
    if n > 0 {
      StatesKeysDistinct(q, useMinimum, states, n - 1, choices);
      ChoicesKeysDistinct(q, useMinimum, states[n - 1], choices, |choices|, OfferStates(q, useMinimum, states, n - 1, choices));
    }
  }

  // ------------------------------------------------------------------ what is offered

  /** Some state of the layer before can visit a choice and then be `x`. */
  ghost predicate Candidate(q: Request, useMinimum: bool, states: seq<State>, choices: seq<PlaceId>, x: State)
    requires Known(q, choices)
  {
    exists s, id :: s in states && id in choices && Visited(q, useMinimum, s, id) == Some(x)
  }

  lemma {:induction false} ChoicesAreCandidates(q: Request, useMinimum: bool, s: State, choices: seq<PlaceId>, n: nat, kept: seq<State>, x: State)
    requires n <= |choices| && Known(q, choices)
    requires x in OfferChoices(q, useMinimum, s, choices, n, kept)
    ensures x in kept || Candidate(q, useMinimum, [s], choices, x)
  {
    if n > 0 {
      var before, next := OfferChoices(q, useMinimum, s, choices, n - 1, kept), Visited(q, useMinimum, s, choices[n - 1]);
      if x in before {
        ChoicesAreCandidates(q, useMinimum, s, choices, n - 1, kept, x);
      } else {
        UpsertAddsOnly(before, next.value, x);
        assert s in [s] && choices[n - 1] in choices;
      }
    }
  }

  lemma {:induction false} StatesAreCandidates(q: Request, useMinimum: bool, states: seq<State>, n: nat, choices: seq<PlaceId>, x: State)
    requires n <= |states| && Known(q, choices)
    requires x in OfferStates(q, useMinimum, states, n, choices)
    ensures Candidate(q, useMinimum, states, choices, x)
  {
    var before := OfferStates(q, useMinimum, states, n - 1, choices);
    ChoicesAreCandidates(q, useMinimum, states[n - 1], choices, |choices|, before, x);
    if x in before {
      StatesAreCandidates(q, useMinimum, states, n - 1, choices, x);
    } else {
      var s, id :| s in [states[n - 1]] && id in choices && Visited(q, useMinimum, s, id) == Some(x);
      assert s in states;
    }
  }

  // ------------------------------------------------------------------ the best of each key is kept

  /** A kept state has the key of `y` and is not worse. */
  ghost predicate Bests(kept: seq<State>, y: State) {
    exists k :: k in kept && SameKey(k, y) && !StateLess(y, k)
  }

  lemma {:induction false} StateLessIsStrict(a: State, b: State, c: State)
    ensures !StateLess(a, a)
    ensures StateLess(a, b) && StateLess(b, c) ==> StateLess(a, c)
    ensures StateLess(a, b) ==> StateLess(a, c) || StateLess(c, b)
    ensures StateLess(a, b) || StateLess(b, a) || (a.at == b.at && a.continuous == b.continuous && a.used == b.used)
  {
    LexLessIsStrict(a.used, b.used, c.used);
  }

  lemma {:induction false} UpsertBests(kept: seq<State>, s: State)
    ensures Bests(Upsert(kept, s), s)
  {
    var i, now := IndexOfKey(kept, s), Upsert(kept, s);
    StateLessIsStrict(s, s, s);
    assert now[i] in now && SameKey(now[i], s) && !StateLess(s, now[i]);
  }

  lemma {:induction false} UpsertKeepsBests(kept: seq<State>, s: State, y: State)
    requires Bests(kept, y)
    ensures Bests(Upsert(kept, s), y)
  {
    var k :| k in kept && SameKey(k, y) && !StateLess(y, k);
    var j :| 0 <= j < |kept| && kept[j] == k;
    var now := Upsert(kept, s);
    if now[j] != k {
      StateLessIsStrict(y, s, k);
      StateLessIsStrict(s, k, y);
    }
    assert now[j] in now && SameKey(now[j], y) && !StateLess(y, now[j]);
  }

  lemma {:induction false} OfferKeepsBests(q: Request, useMinimum: bool, s: State, id: PlaceId, kept: seq<State>, y: State)
    requires id in q.places && Bests(kept, y)
    ensures Bests(Offer(q, useMinimum, s, id, kept), y)
  {
    var next := Visited(q, useMinimum, s, id);
    if next.Some? {
      UpsertKeepsBests(kept, next.value, y);
    }
  }

  lemma {:induction false} ChoicesKeepBests(q: Request, useMinimum: bool, s: State, choices: seq<PlaceId>, n: nat, kept: seq<State>, y: State)
    requires n <= |choices| && Known(q, choices) && Bests(kept, y)
    ensures Bests(OfferChoices(q, useMinimum, s, choices, n, kept), y)
  {
    if n > 0 {
      ChoicesKeepBests(q, useMinimum, s, choices, n - 1, kept, y);
      OfferKeepsBests(q, useMinimum, s, choices[n - 1], OfferChoices(q, useMinimum, s, choices, n - 1, kept), y);
    }
  }

  lemma {:induction false} ChoicesBest(q: Request, useMinimum: bool, s: State, choices: seq<PlaceId>, n: nat, kept: seq<State>, k: nat, y: State)
    requires k < n <= |choices| && Known(q, choices) && Visited(q, useMinimum, s, choices[k]) == Some(y)
    ensures Bests(OfferChoices(q, useMinimum, s, choices, n, kept), y)
  {
    var before, id := OfferChoices(q, useMinimum, s, choices, n - 1, kept), choices[n - 1];
    if k == n - 1 {
      UpsertBests(before, y);
    } else {
      ChoicesBest(q, useMinimum, s, choices, n - 1, kept, k, y);
      OfferKeepsBests(q, useMinimum, s, id, before, y);
    }
  }

  lemma {:induction false} StatesBest(q: Request, useMinimum: bool, states: seq<State>, n: nat, choices: seq<PlaceId>, i: nat, k: nat, y: State)
    requires i < n <= |states| && k < |choices| && Known(q, choices) && Visited(q, useMinimum, states[i], choices[k]) == Some(y)
    ensures Bests(OfferStates(q, useMinimum, states, n, choices), y)
  {
    var before := OfferStates(q, useMinimum, states, n - 1, choices);
    if i == n - 1 {
      ChoicesBest(q, useMinimum, states[i], choices, |choices|, before, k, y);
    } else {
      StatesBest(q, useMinimum, states, n - 1, choices, i, k, y);
      ChoicesKeepBests(q, useMinimum, states[n - 1], choices, |choices|, before, y);
    }
  }

  /** No candidate of the same key is better. */
  ghost predicate Unbeaten(q: Request, useMinimum: bool, states: seq<State>, choices: seq<PlaceId>, x: State)
    requires Known(q, choices)
  {
    Candidate(q, useMinimum, states, choices, x)
    && forall y :: Candidate(q, useMinimum, states, choices, y) && SameKey(x, y) ==> !StateLess(y, x)
  }

  lemma {:induction false} CandidateIsBested(q: Request, useMinimum: bool, states: seq<State>, choices: seq<PlaceId>, y: State) returns (k: State)
    requires Known(q, choices) && Candidate(q, useMinimum, states, choices, y)
    ensures k in OfferStates(q, useMinimum, states, |states|, choices) && SameKey(k, y) && !StateLess(y, k)
  {
    var s, id :| s in states && id in choices && Visited(q, useMinimum, s, id) == Some(y);
    var i :| 0 <= i < |states| && states[i] == s;
    var c :| 0 <= c < |choices| && choices[c] == id;
    StatesBest(q, useMinimum, states, |states|, choices, i, c, y);
    k :| k in OfferStates(q, useMinimum, states, |states|, choices) && SameKey(k, y) && !StateLess(y, k);
  }

  lemma {:induction false} OneOfAKey(kept: seq<State>, a: State, b: State)
    requires KeysDistinct(kept) && a in kept && b in kept && SameKey(a, b)
    ensures a == b
  {
    var i :| 0 <= i < |kept| && kept[i] == a;
    var j :| 0 <= j < |kept| && kept[j] == b;
  }

  /** A layer keeps exactly the unbeaten candidates, one of each key. */
  lemma {:induction false} KeptIffUnbeaten(q: Request, useMinimum: bool, states: seq<State>, choices: seq<PlaceId>, x: State)
    requires Known(q, choices)
    ensures x in OfferStates(q, useMinimum, states, |states|, choices) <==> Unbeaten(q, useMinimum, states, choices, x)
  {
    var kept := OfferStates(q, useMinimum, states, |states|, choices);
    StatesKeysDistinct(q, useMinimum, states, |states|, choices);
    if x in kept {
      StatesAreCandidates(q, useMinimum, states, |states|, choices, x);
      forall y | Candidate(q, useMinimum, states, choices, y) && SameKey(x, y) ensures !StateLess(y, x) {
        var k := CandidateIsBested(q, useMinimum, states, choices, y);
        OneOfAKey(kept, x, k);
      }
    }
    if Unbeaten(q, useMinimum, states, choices, x) {
      var k := CandidateIsBested(q, useMinimum, states, choices, x);
      StatesAreCandidates(q, useMinimum, states, |states|, choices, k);
      StateLessIsStrict(x, k, x);
      assert k == x;
    }
  }
}
