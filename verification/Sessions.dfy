/** One-shot streaming session tokens (src/cri/src/streaming.rs). */
module Sessions {

  type Token = string

  /** Clock readings, in nanoseconds. */
  type Time = int

  datatype Kind = Exec | Attach | PortForward

  /** The URL path segment of a kind. */
  function Segment(k: Kind): string {
    match k
    case Exec => "exec"
    case Attach => "attach"
    case PortForward => "portforward"
  }

  /** A registered session; `about` stands for everything else the session describes. */
  datatype Session = Session(kind: Kind, about: string)

  datatype Pending = Pending(session: Session, expiresAt: Time)

  datatype Reply = Granted(session: Session) | KindMismatch | NotFound

  type Store = map<Token, Pending>

  const TTL := 60_000_000_000

  function Pruned(s: Store, now: Time): Store {
    map t | t in s && now < s[t].expiresAt :: s[t]
  }

  function Answer(s: Store, kind: string, token: Token): Reply {
    if token !in s then NotFound
    else if Segment(s[token].session.kind) == kind then Granted(s[token].session)
    else KindMismatch
  }

  /** What happens to the store: a registration, whose two clock readings are taken one after the
      other under the lock, or a connection with its URL kind and token. */
  datatype Op = Register(token: Token, session: Session, now: Time, later: Time)
              | Connect(kind: string, token: Token, now: Time)

  function ReplyTo(s: Store, op: Op): Reply
    requires op.Connect?
  {
    Answer(Pruned(s, op.now), op.kind, op.token)
  }

  function Next(s: Store, op: Op): Store {
    var live := Pruned(s, op.now);
    match op
    case Register(token, session, _, later) => live[token := Pending(session, later + TTL)]
    case Connect(kind, token, _) => if Answer(live, kind, token).Granted? then live - {token} else live
  }

  class SessionStore {
    var sessions: Store

    constructor ()
      ensures sessions == map[]
    {
      sessions := map[];
    }

    method PruneExpired(now: Time)
      modifies this
      ensures sessions == Pruned(old(sessions), now)
    {
      sessions := map t | t in sessions && !(sessions[t].expiresAt <= now) :: sessions[t];
    }

    method Register(token: Token, session: Session, now: Time, later: Time)
      modifies this
      ensures sessions == Next(old(sessions), Op.Register(token, session, now, later))
      ensures sessions == Pruned(old(sessions), now)[token := Pending(session, later + 60_000_000_000)]
    {
      PruneExpired(now);
      sessions := sessions[token := Pending(session, later + TTL)];
    }

    /** The lookup in `handle_connection`: consumed only if the URL names the right operation. */
    method Connect(kind: string, token: Token, now: Time) returns (r: Reply)
      modifies this
      ensures r == ReplyTo(old(sessions), Op.Connect(kind, token, now))
      ensures sessions == Next(old(sessions), Op.Connect(kind, token, now))
    {
      PruneExpired(now);
      if token !in sessions {
        r := NotFound;
      } else if Segment(sessions[token].session.kind) == kind {
        r := Granted(sessions[token].session);
        sessions := sessions - {token};
      } else {
        r := KindMismatch;
      }
    }
  }

  // ---------------------------------------------------------------- runs

  function After(ops: seq<Op>, k: nat): Store
    requires k <= |ops|
  {
    if k == 0 then map[] else Next(After(ops, k - 1), ops[k - 1])
  }

  function ReplyAt(ops: seq<Op>, i: nat): Reply
    requires i < |ops| && ops[i].Connect?
  {
    ReplyTo(After(ops, i), ops[i])
  }

  predicate GrantedAt(ops: seq<Op>, i: nat, token: Token) {
    i < |ops| && ops[i].Connect? && ops[i].token == token && ReplyAt(ops, i).Granted?
  }

  function End(op: Op): Time {
    if op.Register? then op.later else op.now
  }

  /** The clock never goes back, within an operation or from one to the next. */
  ghost predicate Monotone(ops: seq<Op>) {
    && (forall i :: 0 <= i < |ops| ==> ops[i].now <= End(ops[i]))
    && (forall i, j :: 0 <= i < j < |ops| ==> End(ops[i]) <= ops[j].now)
  }

  /** No token is handed out twice. */
  ghost predicate FreshTokens(ops: seq<Op>) {
    forall i, j :: 0 <= i < j < |ops| && ops[i].Register? && ops[j].Register? ==> ops[i].token != ops[j].token
  }

  /** Registered by operation `j` and not granted since, before operation `k`. */
  ghost predicate Outstanding(ops: seq<Op>, j: nat, k: nat, token: Token) {
    && j < k <= |ops| && ops[j].Register? && ops[j].token == token
    && forall m :: j < m < k ==> !GrantedAt(ops, m, token)
  }

  function Entry(op: Op): Pending
    requires op.Register?
  {
    Pending(op.session, op.later + TTL)
  }

  /** A token that an operation leaves in the store was there before, or it registered it. */
  lemma StillStored(s: Store, op: Op, token: Token)
    requires token in Next(s, op) && !(op.Register? && op.token == token)
    ensures token in s && Next(s, op)[token] == s[token]
    ensures op.Connect? && op.token == token ==> !ReplyTo(s, op).Granted?
  {}

  /** Whatever is in the store was registered and has not been granted. */
  lemma {:induction false} StoredIsOutstanding(ops: seq<Op>, k: nat, token: Token) returns (j: nat)
    requires k <= |ops| && token in After(ops, k)
    ensures Outstanding(ops, j, k, token) && After(ops, k)[token] == Entry(ops[j])
  {
    if ops[k - 1].Register? && ops[k - 1].token == token {
      j := k - 1;
    } else {
      StillStored(After(ops, k - 1), ops[k - 1], token);
      j := StoredIsOutstanding(ops, k - 1, token);
      assert !GrantedAt(ops, k - 1, token);
    }
  }

  /** Whatever was registered, has not been granted and has not expired is in the store. */
  lemma {:induction false} OutstandingIsStored(ops: seq<Op>, j: nat, k: nat, token: Token)
    requires FreshTokens(ops) && Outstanding(ops, j, k, token)
    requires forall m :: j < m < k ==> ops[m].now < Entry(ops[j]).expiresAt
    ensures token in After(ops, k) && After(ops, k)[token] == Entry(ops[j])
    decreases k
  {
    if j < k - 1 {
      assert Outstanding(ops, j, k - 1, token);
      OutstandingIsStored(ops, j, k - 1, token);
      assert !GrantedAt(ops, k - 1, token);
    }
  }

  /** Exactly which connections succeed, over every interleaving of registrations and
      connections: those whose token was registered before, for this operation, has not been
      granted since and is younger than 60 seconds.  The session granted is the one registered. */
  lemma GrantedExactlyWhen(ops: seq<Op>, i: nat)
    requires Monotone(ops) && FreshTokens(ops)
    requires i < |ops| && ops[i].Connect?
    ensures ReplyAt(ops, i).Granted? <==>
      exists j: nat :: Grantable(ops, j, i)
    ensures forall j: nat :: Grantable(ops, j, i) ==> ReplyAt(ops, i) == Granted(ops[j].session)
  {
    var c := ops[i];
    forall j: nat | Grantable(ops, j, i) ensures ReplyAt(ops, i) == Granted(ops[j].session) {
      OutstandingIsStored(ops, j, i, c.token);
    }
    if ReplyAt(ops, i).Granted? {
      var j := StoredIsOutstanding(ops, i, c.token);
      assert Grantable(ops, j, i);
    }
  }

  ghost predicate Grantable(ops: seq<Op>, j: nat, i: nat)
    requires i < |ops| && ops[i].Connect?
  {
    && Outstanding(ops, j, i, ops[i].token)
    && Segment(ops[j].session.kind) == ops[i].kind
    && ops[i].now < ops[j].later + 60_000_000_000
  }

  /** No token is ever granted twice. */
  lemma GrantedOnce(ops: seq<Op>, i: nat, k: nat, token: Token)
    requires Monotone(ops) && FreshTokens(ops) && i < k
    requires GrantedAt(ops, i, token)
    ensures !GrantedAt(ops, k, token)
  {
    if GrantedAt(ops, k, token) {
      GrantedExactlyWhen(ops, i);
      GrantedExactlyWhen(ops, k);
    }
  }

  /** Two registrations of one token are the same one. */
  lemma SameRegistration(ops: seq<Op>, i: nat, j: nat)
    requires FreshTokens(ops) && i < |ops| && j < |ops|
    requires ops[i].Register? && ops[j].Register? && ops[i].token == ops[j].token
    ensures i == j
  {}

  /** What a request is answered while a token registered by operation `j` is outstanding. */
  lemma OutstandingAnswer(ops: seq<Op>, j: nat, k: nat)
    requires Monotone(ops) && FreshTokens(ops) && k < |ops| && ops[k].Connect?
    requires Outstanding(ops, j, k, ops[k].token)
    ensures ReplyAt(ops, k) ==
            if Entry(ops[j]).expiresAt <= ops[k].now then NotFound
            else if Segment(ops[j].session.kind) == ops[k].kind then Granted(ops[j].session)
            else KindMismatch
  {
    var token := ops[k].token;
    if ops[k].now < Entry(ops[j]).expiresAt {
      OutstandingIsStored(ops, j, k, token);
    } else if token in After(ops, k) {
      var i := StoredIsOutstanding(ops, k, token);
      SameRegistration(ops, i, j);
    }
  }

  /** A request for the wrong operation does not consume the token: as long as it is not granted,
      a later request for it is answered by its registration alone.  The right request in time
      gets the registered session. */
  lemma MismatchDoesNotConsume(ops: seq<Op>, i: nat, k: nat) returns (j: nat)
    requires Monotone(ops) && FreshTokens(ops) && i < k < |ops| && ops[i].Connect? && ops[k].Connect?
    requires ReplyAt(ops, i) == KindMismatch && ops[i].token == ops[k].token
    requires forall m :: i < m < k ==> !GrantedAt(ops, m, ops[i].token)
    ensures j < i && ops[j].Register? && ops[j].token == ops[i].token && Segment(ops[j].session.kind) != ops[i].kind
    ensures ReplyAt(ops, k) ==
            if Entry(ops[j]).expiresAt <= ops[k].now then NotFound
            else if Segment(ops[j].session.kind) == ops[k].kind then Granted(ops[j].session)
            else KindMismatch
  {
    j := StoredIsOutstanding(ops, i, ops[i].token);
    assert Outstanding(ops, j, k, ops[k].token);
    OutstandingAnswer(ops, j, k);
  }

  /** The path segments tell the operations apart. */
  lemma SegmentsDiffer(a: Kind, b: Kind)
    requires Segment(a) == Segment(b)
    ensures a == b
  {
    assert |Segment(a)| == |Segment(b)|;
  }

  /** The path segments, as they stand in the URLs. */
  lemma SegmentNames()
    ensures Segment(Exec) == "exec" && Segment(Attach) == "attach" && Segment(PortForward) == "portforward"
  {}

  /** The whole answer to a request: it is not found exactly when no registration of its token is
      outstanding and younger than 60 seconds; otherwise the operation decides. */
  lemma AnsweredExactly(ops: seq<Op>, i: nat)
    requires Monotone(ops) && FreshTokens(ops) && i < |ops| && ops[i].Connect?
    ensures ReplyAt(ops, i) == NotFound <==> !exists j: nat :: Live(ops, j, i)
    ensures forall j: nat :: Live(ops, j, i) ==>
      ReplyAt(ops, i) ==
      if Segment(ops[j].session.kind) == ops[i].kind then Granted(ops[j].session) else KindMismatch
  {
    forall j: nat | Live(ops, j, i)
      ensures ReplyAt(ops, i) ==
              if Segment(ops[j].session.kind) == ops[i].kind then Granted(ops[j].session) else KindMismatch
    {
      OutstandingAnswer(ops, j, i);
    }
    if ReplyAt(ops, i) != NotFound {
      var j := StoredIsOutstanding(ops, i, ops[i].token);
      assert Live(ops, j, i);
    }
  }

  ghost predicate Live(ops: seq<Op>, j: nat, i: nat)
    requires i < |ops| && ops[i].Connect?
  {
    Outstanding(ops, j, i, ops[i].token) && ops[i].now < ops[j].later + 60_000_000_000
  }
}
