/** The registry of stream tokens: two dictionaries kept as inverses of each other. */
module StreamTokens {
  import opened Text

  datatype Event = Mint(stream: string, token: string) | Revoke(stream: string) | RevokeToken(token: string)

  /** The token was minted for the stream, and since then neither was revoked. */
  ghost predicate Live(history: seq<Event>, stream: string, token: string) {
    exists i :: 0 <= i < |history| && history[i] == Mint(stream, token) && Untouched(history, i, stream, token)
  }

  ghost predicate Untouched(history: seq<Event>, i: nat, stream: string, token: string) {
    forall j | i < j < |history| :: history[j] != Revoke(stream) && history[j] != RevokeToken(token)
  }

  predicate Minted(history: seq<Event>, token: string) {
    exists i :: 0 <= i < |history| && history[i].Mint? && history[i].token == token
  }

  lemma LiveSnoc(history: seq<Event>, e: Event, stream: string, token: string)
    ensures Live(history + [e], stream, token)
            <==> e == Mint(stream, token) || (Live(history, stream, token) && e != Revoke(stream) && e != RevokeToken(token))
  {
    var all := history + [e];
    if Live(all, stream, token) {
      var i :| 0 <= i < |all| && all[i] == Mint(stream, token) && Untouched(all, i, stream, token);
      if i < |history| {
        assert all[|history|] == e;
        assert Untouched(history, i, stream, token) by {
          assert forall j | i < j < |history| :: history[j] == all[j];
        }
      }
    }
    if e == Mint(stream, token) {
      assert all[|history|] == e && Untouched(all, |history|, stream, token);
    } else if Live(history, stream, token) && e != Revoke(stream) && e != RevokeToken(token) {
      var i :| 0 <= i < |history| && history[i] == Mint(stream, token) && Untouched(history, i, stream, token);
      assert all[i] == Mint(stream, token) && Untouched(all, i, stream, token);
    }
  }

  lemma MintedSnoc(history: seq<Event>, e: Event, t: string)
    ensures Minted(history + [e], t) <==> Minted(history, t) || (e.Mint? && e.token == t)
  {
    var all := history + [e];
    if Minted(history, t) {
      var i :| 0 <= i < |history| && history[i].Mint? && history[i].token == t;
      assert all[i].Mint?;
    }
    if e.Mint? && e.token == t {
      assert all[|history|].Mint?;
    }
  }

  type ByToken = map<string, string>

  type ByStream = map<string, set<string>>

  /** Each dictionary is the inverse of the other, and no bucket is empty. */
  predicate Inverses(byToken: ByToken, byStream: ByStream) {
    && (forall t | t in byToken :: byToken[t] in byStream && t in byStream[byToken[t]])
    && (forall s | s in byStream :: byStream[s] != {} && forall t | t in byStream[s] :: t in byToken && byToken[t] == s)
  }

  predicate Bound(byToken: ByToken, s: string, t: string) { t in byToken && byToken[t] == s }

  /** The token dictionary holds the live pairs and no others. */
  ghost predicate Agrees(byToken: ByToken, history: seq<Event>) {
    && (forall s, t :: Live(history, s, t) <==> Bound(byToken, s, t))
    && (forall t | t in byToken :: Minted(history, t) && t != "")
  }

  /** What an event does to the token dictionary. */
  function Apply(byToken: ByToken, e: Event): ByToken {
    match e
    case Mint(s, t) => byToken[t := s]
    case Revoke(s) => map t | t in byToken && byToken[t] != s :: byToken[t]
    case RevokeToken(t) => byToken - {t}
  }

  /** A minted token is new and not empty. */
  predicate FreshMint(history: seq<Event>, e: Event) { e.Mint? ==> e.token != "" && !Minted(history, e.token) }

  lemma ApplyAgrees(byToken: ByToken, history: seq<Event>, e: Event)
    requires Agrees(byToken, history) && FreshMint(history, e)
    ensures Agrees(Apply(byToken, e), history + [e])
  {
    hide Live, Minted;
    forall s, t
      ensures Live(history + [e], s, t) <==> Bound(Apply(byToken, e), s, t)
    {
      LiveSnoc(history, e, s, t);
      assert Live(history, s, t) <==> Bound(byToken, s, t);
      ApplyBound(byToken, history, e, s, t);
    }
    forall t | t in Apply(byToken, e)
      ensures Minted(history + [e], t) && t != ""
    {
      MintedSnoc(history, e, t);
    }
  }

  lemma ApplyBound(byToken: ByToken, history: seq<Event>, e: Event, s: string, t: string)
    requires FreshMint(history, e) && (t in byToken ==> Minted(history, t))
    ensures Bound(Apply(byToken, e), s, t)
            <==> e == Mint(s, t) || (Bound(byToken, s, t) && e != Revoke(s) && e != RevokeToken(t))
  {
    hide Minted;
  }

  lemma MintInverses(byToken: ByToken, byStream: ByStream, s: string, t: string)
    requires Inverses(byToken, byStream) && t !in byToken
    ensures Inverses(Apply(byToken, Mint(s, t)), byStream[s := (if s in byStream then byStream[s] else {}) + {t}])
  {
  }

  lemma RevokeInverses(byToken: ByToken, byStream: ByStream, s: string)
    requires Inverses(byToken, byStream)
    ensures Inverses(Apply(byToken, Revoke(s)), byStream - {s})
    ensures byToken - (if s in byStream then byStream[s] else {}) == Apply(byToken, Revoke(s))
  {
    var tokens := if s in byStream then byStream[s] else {};
    forall t | t in byToken
      ensures t in tokens <==> byToken[t] == s
    {
    }
  }

  lemma RevokeTokenInverses(byToken: ByToken, byStream: ByStream, t: string)
    requires Inverses(byToken, byStream) && t in byToken
    ensures byToken[t] in byStream
    ensures var bucket := byStream[byToken[t]] - {t};
            Inverses(byToken - {t}, if bucket == {} then byStream - {byToken[t]} else byStream[byToken[t] := bucket])
  {
    var bucket := byStream[byToken[t]] - {t};
    forall x | x in byToken && x != t && byToken[x] == byToken[t]
      ensures x in bucket
    {
    }
  }

  class StreamTokenRegistry {
    var byToken: ByToken
    var byStream: ByStream
    ghost var history: seq<Event>

    ghost predicate Valid()
      reads this
    {
      Inverses(byToken, byStream) && Agrees(byToken, history)
    }

    constructor ()
      ensures Valid() && history == []
    {
      byToken, byStream, history := map[], map[], [];
    }

    /** `mint`, given the token the generator produced. */
    method Mint(session: string, token: string)
      requires Valid() && token != "" && !Minted(history, token)
      modifies this
      ensures Valid() && history == old(history) + [Event.Mint(session, token)]
    {
      hide Inverses, Live, Minted;
      ApplyAgrees(byToken, history, Event.Mint(session, token));
      MintInverses(byToken, byStream, session, token);
      hide Agrees;
      byToken := byToken[token := session];
      byStream := byStream[session := (if session in byStream then byStream[session] else {}) + {token}];
      history := history + [Event.Mint(session, token)];
    }

    /** `verify`. */
    method Verify(session: string, token: Option<string>) returns (ok: bool)
      requires Valid()
      ensures ok <==> token.Some? && Live(history, session, token.value)
    {
      hide Live, Minted;
      if token.None? {
        return false;
      }
      assert Live(history, session, token.value) <==> Bound(byToken, session, token.value);
      if token.value == "" || token.value !in byToken {
        return false;
      }
      var bound := byToken[token.value];
      if |bound| != |session| {
        return false;
      }
      ok := bound == session;
    }

    /** `revoke`: every token of the session. */
    method Revoke(session: string)
      requires Valid()
      modifies this
      ensures Valid() && history == old(history) + [Event.Revoke(session)]
    {
      hide Inverses, Agrees;
      ApplyAgrees(byToken, history, Event.Revoke(session));
      RevokeInverses(byToken, byStream, session);
      var tokens := if session in byStream then byStream[session] else {};
      byStream := byStream - {session};
      byToken := byToken - tokens;
      history := history + [Event.Revoke(session)];
    }

    /** `revoke_token`: one token; its peers stay. */
    method RevokeToken(token: Option<string>)
      requires Valid()
      modifies this
      ensures Valid()
      ensures history == if token.Some? && token.value != "" then old(history) + [Event.RevokeToken(token.value)]
                         else old(history)
    {
      hide Inverses, Agrees;
      if token.None? || token.value == "" {
        return;
      }
      var t := token.value;
      ApplyAgrees(byToken, history, Event.RevokeToken(t));
      history := history + [Event.RevokeToken(t)];
      if t !in byToken {
        assert byToken - {t} == byToken;
        return;
      }
      RevokeTokenInverses(byToken, byStream, t);
      var stream := byToken[t];
      byToken := byToken - {t};
      if stream !in byStream {
        return;
      }
      var bucket := byStream[stream] - {t};
      ghost var shrunk := byStream[stream := bucket];
      byStream := byStream[stream := bucket];
      if bucket == {} {
        byStream := byStream - {stream};
        assert shrunk - {stream} == old(byStream) - {stream};
      }
    }
  }
}
