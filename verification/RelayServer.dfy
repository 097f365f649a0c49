/** The relay server's shared object: four maps changed in place under one lock.
    Each method is proved against the transition of `RelayModel` it carries out. */
module RelayServer {
  import opened Common
  import opened Net
  import opened RelayModel
  import Inv = RelayInvariants
  import Quotas = RelayQuotas

  lemma ActiveMeansArms(s: State, token: Token)
    ensures (exists k | k in s.sessions :: k.token == token) <==> ArmsOfToken(s, token) != {}
  {
    if k :| k in s.sessions && k.token == token {
      assert k in ArmsOfToken(s, token);
    }
  }

  class Admission {
    const config: Config
    const crypto: Crypto
    var tickets: map<Token, Ticket>
    var pending: map<SocketAddr, Pending>
    var sessions: map<SessionKey, Session>
    var sources: map<SocketAddr, (SessionKey, Side)>

    function View(): State
      reads this
    {
      State(tickets, pending, sessions, sources)
    }

    ghost predicate Valid()
      reads this
    {
      ValidConfig(config) && Inv.Inv(View()) && Quotas.Quotas(config, View())
    }

    constructor (config: Config, crypto: Crypto)
      requires ValidConfig(config)
      ensures Valid() && View() == EMPTY && this.config == config && this.crypto == crypto
    {
      this.config := config;
      this.crypto := crypto;
      tickets, pending, sessions, sources := map[], map[], map[], map[];
      new;
      Quotas.EmptyWithinQuota(config);
    }

    /** A configuration out of range gets no server. */
    static method Create(config: Config, crypto: Crypto) returns (r: Option<Admission>)
      ensures r.Some? <==> && 0 < config.ticketTtl <= 300_000_000_000 && 0 < config.idleTimeout <= 3_600_000_000_000
                           && 1 <= config.maxSessions <= 4096 && 1 <= config.maxPendingPerIp <= 128
      ensures r.Some? ==> fresh(r.value) && r.value.Valid() && r.value.View() == EMPTY
      ensures r.Some? ==> r.value.config == config && r.value.crypto == crypto
    {
      if !ValidConfig(config) {
        return None;
      }
      var admission := new Admission(config, crypto);
      r := Some(admission);
    }

    /** The four tables are swept in the source's order, each against the ones not yet swept. */
    method Cleanup(now: nat)
      requires Valid()
      modifies this
      ensures Valid() && View() == RelayModel.Cleanup(config, old(View()), now)
    {
      hide Inv.Inv, Quotas.Quotas;
      ghost var s := View();
      Quotas.CleanupKeepsAll(config, s, now);
      pending := SweptPending(tickets, pending, now);
      sessions := SweptSessions(config, tickets, sessions, now);
      sources := SweptSources(sessions, sources);
      tickets := SweptTickets(tickets, now);
    }

    method Issue(now: nat, later: nat, token: Token, a: NodeId, b: NodeId) returns (ok: bool)
      requires Valid()
      modifies this
      ensures Valid() && (View(), ok) == RelayModel.Issue(config, old(View()), now, later, token, a, b)
    {
      hide Inv.Inv, Quotas.Quotas;
      hide RelayModel.Cleanup, TicketsOfPair, TicketsOfNode, ArmsOfToken, TicketPairLimit, TicketNodeLimit;
      ghost var s := View();
      Cleanup(now);
      var active := exists k | k in sessions :: k.token == token;
      ActiveMeansArms(View(), token);
      ok := !(a == b || token in tickets || active || |tickets| >= config.maxSessions * 2
              || |TicketsOfPair(View(), a, b)| >= TicketPairLimit(config)
              || |TicketsOfNode(View(), a)| >= TicketNodeLimit(config)
              || |TicketsOfNode(View(), b)| >= TicketNodeLimit(config));
      Inv.IssueKeeps(config, s, now, later, token, a, b);
      Quotas.IssueKeepsQuotas(config, View(), later, token, a, b);
      if ok {
        tickets := tickets[token := Ticket(a, b, later + config.ticketTtl)];
      }
    }

    method AvailableArm(h: Hello, side: Side) returns (arm: Option<SessionKey>)
      ensures arm == RelayModel.AvailableArm(config, View(), h, side)
    {
      var waiting := WaitingArms(View(), h, side);
      if waiting != {} {
        var key :| key in waiting;
        var rest := waiting - {key};
        while rest != {}
          invariant key in waiting && rest <= waiting
          invariant forall k :: k in waiting - rest ==> key.arm <= k.arm
        {
          var k :| k in rest;
          if k.arm < key.arm {
            key := k;
          }
          rest := rest - {k};
        }
        assert IsLeast(key, waiting);
        return Some(key);
      }
      if |sessions| >= config.maxSessions
         || |SessionsOfPair(View(), h.node, h.peer)| >= SessionPairLimit(config)
         || |SessionsOfNode(View(), h.node)| >= SessionNodeLimit(config)
         || |SessionsOfNode(View(), h.peer)| >= SessionNodeLimit(config)
      {
        return None;
      }
      var slot := 0;
      while slot < MAX_ARMS_PER_TICKET
        invariant FirstFreeArm(View(), h.token, 0) == FirstFreeArm(View(), h.token, slot)
      {
        if SessionKey(h.token, slot) !in sessions {
          return Some(SessionKey(h.token, slot));
        }
        slot := slot + 1;
      }
      arm := None;
    }

    method Hello(h: Hello, source: SocketAddr, family: Family, now: nat, nonce: nat) returns (replies: Replies)
      requires Valid()
      modifies this`pending
      ensures Valid()
      ensures (View(), replies) == HelloStep(config, crypto, old(View()), h, source, family, now, nonce)
    {
      hide Inv.Inv, Quotas.Quotas;
      ghost var s := View();
      Inv.HelloKeeps(config, crypto, s, h, source, family, now, nonce);
      Quotas.HelloWithinQuota(config, crypto, s, h, source, family, now, nonce);
      if !Accepts(family, source) {
        return [];
      }
      var side := ValidateHello(crypto, View(), h, now);
      if side.None? {
        return [];
      }
      if source in sources {
        var (key, boundSide) := sources[source];
        var bound := BoundOf(View(), source);
        if key.token == h.token && boundSide == side.value && bound.Some? && bound.value.hello == h {
          return AddressedTo(ReadyPackets(View(), key), source);
        }
        return [];
      }
      if source in pending {
        if pending[source].session.token == h.token && pending[source].challenge.hello == h {
          return ChallengeReply(pending[source].challenge, source);
        }
        return [];
      }
      var arm := AvailableArm(h, side.value);
      if |pending| >= config.maxSessions * 2 || |PendingOfIp(View(), source.Ip())| >= config.maxPendingPerIp
        || arm.None? {
        return [];
      }
      var challenge := Challenge(h, nonce, source);
      pending := pending[source := Pending(challenge, now, SessionKey(h.token, 0), side.value)];
      return ChallengeReply(challenge, source);
    }

    method Register(challenge: Challenge, signature: Signature, source: SocketAddr, family: Family, now: nat)
      returns (replies: Replies)
      requires Valid()
      modifies this`pending, this`sessions, this`sources
      ensures Valid()
      ensures (View(), replies) == RegisterStep(config, crypto, old(View()), challenge, signature, source, family, now)
    {
      hide Inv.Inv, Quotas.Quotas;
      ghost var s := View();
      Inv.RegisterKeeps(config, crypto, s, challenge, signature, source, family, now);
      Quotas.RegisterWithinQuota(config, crypto, s, challenge, signature, source, family, now);
      if source !in pending {
        return [];
      }
      var p := pending[source];
      if FamilyOf(source) != family || p.challenge != challenge || challenge.source != source
         || Since(now, p.issued) >= CHALLENGE_TTL
         || ValidateHello(crypto, View(), challenge.hello, now) != Some(p.side)
         || !crypto.verifies(challenge, signature)
      {
        return [];
      }
      pending := pending - {source};
      if source in sources {
        return [];
      }
      var arm := AvailableArm(challenge.hello, p.side);
      if arm.None? {
        return [];
      }
      var session := if arm.value in sessions then sessions[arm.value] else Session(None, None, now);
      if session.At(p.side).Some? {
        return [];
      }
      session := session.With(p.side, Bound(challenge.hello, source));
      session := session.(lastActivity := now);
      sessions := sessions[arm.value := session];
      sources := sources[source := (arm.value, p.side)];
      return ReadyPackets(View(), arm.value);
    }

    method Control(packet: Packet, source: SocketAddr, family: Family, now: nat, nonce: nat) returns (replies: Replies)
      requires Valid()
      modifies this
      ensures Valid()
      ensures (View(), replies) == RelayModel.Control(config, crypto, old(View()), packet, source, family, now, nonce)
    {
      Cleanup(now);
      match packet {
        case HelloPacket(h) => replies := Hello(h, source, family, now, nonce);
        case RegisterPacket(challenge, signature) => replies := Register(challenge, signature, source, family, now);
        case _ => replies := [];
      }
    }

    method Forward(source: SocketAddr, family: Family, now: nat) returns (to: Option<SocketAddr>)
      requires Valid()
      modifies this`sessions
      ensures Valid() && (View(), to) == RelayModel.Forward(config, old(View()), source, family, now)
    {
      hide Inv.Inv, Quotas.Quotas;
      ghost var s := View();
      Inv.ForwardKeeps(config, s, source, family, now);
      Quotas.ForwardWithinQuota(config, s, source, family, now);
      if source !in sources || FamilyOf(source) != family {
        return None;
      }
      var (key, side) := sources[source];
      if key !in sessions || !sessions[key].Ready() || Since(now, sessions[key].lastActivity) >= config.idleTimeout {
        return None;
      }
      sessions := sessions[key := sessions[key].(lastActivity := now)];
      return Some(sessions[key].At(1 - side).value.source);
    }
  }
}
