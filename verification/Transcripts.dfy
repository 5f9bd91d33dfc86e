/** What a transcript run leaves behind: per side, the bytes sent at each level, the peer's
    transport parameters and the traffic secrets, kept in tables that outlive the run and are
    only partly cleared by the next one. */
module Transcripts {
  import opened Streams
  import opened Lanes
  import opened Callbacks
  import opened Buffers
  import opened Endpoints
  import opened PairWorld
  import opened PairRun
  import opened PairDeeds
  import opened Deeds
  import opened TlsEndpoints

  // ---- the specification ----

  /** What one side's accessors can show. */
  datatype Exported = Exported(crypto: PerLevel<seq<byte>>, params: seq<byte>, secrets: PerLevel<Secrets>)

  const NOTHING := Exported(Everywhere([]), [], Everywhere(Secrets(None, None)))

  function Export(e: Endpoint): Exported
  {
    Exported(PerLevel(e.outputs.At(0).history, e.outputs.At(1).history, e.outputs.At(2).history, e.outputs.At(3).history),
             e.peerParams, e.secrets)
  }

  /** One run: whether both endpoints could be set up, and what TLS did if they could. */
  datatype Attempt = Attempt(initOk: bool, clientDrive: Oracle, serverDrive: Oracle)

  /** What a run exports; it has no other argument, so nothing older can show through. */
  function Outcome(a: Attempt): PerSide<Exported>
  {
    if !a.initOk then PerSide(NOTHING, NOTHING)
    else var ends := Loop(NEW_ENDS, a.clientDrive, a.serverDrive, 0).0;
         PerSide(Export(ends.client), Export(ends.server))
  }

  /** The accessors' answers: the bytes written, or a refusal. */
  function CryptoAnswer(x: Exported, level: int, hasOut: bool, outLen: nat): Option<seq<byte>>
  {
    if level < 0 || level >= LEVELS || |x.crypto.At(level)| > outLen || (x.crypto.At(level) != [] && !hasOut) then None
    else Some(x.crypto.At(level))
  }

  function ParamsAnswer(x: Exported, outLen: nat): Option<seq<byte>>
  {
    if |x.params| > outLen then None else Some(x.params)
  }

  function SecretAnswer(secrets: PerLevel<Secrets>, level: int, direction: int, hasOut: bool, outLen: nat): Option<seq<byte>>
  {
    if level < 0 || level >= LEVELS || direction < 0 || direction >= 2 || outLen < SECRET_LEN || !hasOut then None
    else if direction == READ_SECRET then secrets.At(level).read
    else secrets.At(level).write
  }

  // ---- what a run exports, told from the outside ----

  /** What a side exports whose TLS stack made these callbacks. */
  function ToldExport(cbs: seq<Callback>): Exported
  {
    Exported(PerLevel(Transcribed(cbs, 0, CAPACITY), Transcribed(cbs, 1, CAPACITY),
                      Transcribed(cbs, 2, CAPACITY), Transcribed(cbs, 3, CAPACITY)),
             var p := Announced(None, cbs); if p.Some? then p.value else [],
             PerLevel(ToldSecrets(cbs, 0), ToldSecrets(cbs, 1), ToldSecrets(cbs, 2), ToldSecrets(cbs, 3)))
  }

  function ToldSecrets(cbs: seq<Callback>, l: nat): Secrets
  {
    Secrets(LastSecret(cbs, l, READ_SECRET), LastSecret(cbs, l, WRITE_SECRET))
  }

  /** The callbacks a side makes in a run that stops after `n` iterations; none if it never starts. */
  function CallbacksIn(a: Attempt, side: Side, n: nat): seq<Callback>
  {
    if a.initOk then Scripts(DriveOf(a.clientDrive, a.serverDrive, side), n) else []
  }

  lemma ExportIsTold(e: Endpoint, cbs: seq<Callback>)
    requires Told(e, cbs)
    ensures Export(e) == ToldExport(cbs)
  {
    hide Transcribed, LastSecret, Announced, CurrentLevel;
    assert ToldLevel(e, cbs, 0) && ToldLevel(e, cbs, 1) && ToldLevel(e, cbs, 2) && ToldLevel(e, cbs, 3);
  }

  /** A run exports, for each side, the fold of the callbacks its stack made in exactly the iterations
      the return codes demand. */
  lemma OutcomeIsTold(a: Attempt, n: nat)
    requires StopsAt(a.clientDrive, a.serverDrive, n)
    ensures Outcome(a) == PerSide(ToldExport(CallbacksIn(a, Client, n)), ToldExport(CallbacksIn(a, Server, n)))
  {
    if a.initOk {
      hide Loop, StopsAt, Told, ToldExport, Export, Scripts;
      LoopIsTold(a.clientDrive, a.serverDrive, Client);
      LoopIsTold(a.clientDrive, a.serverDrive, Server);
      var (ends, m) := Loop(NEW_ENDS, a.clientDrive, a.serverDrive, 0);
      StopsOnce(a.clientDrive, a.serverDrive, n, m);
      ExportIsTold(ends.client, CallbacksIn(a, Client, n));
      ExportIsTold(ends.server, CallbacksIn(a, Server, n));
    } else {
      assert ToldExport([]) == NOTHING;
    }
  }

  /** What each accessor answers after a run, in terms of the callbacks made and nothing else. */
  lemma AnswersAfterRun(a: Attempt, n: nat, side: Side, level: int, direction: int, hasOut: bool, outLen: nat)
    requires StopsAt(a.clientDrive, a.serverDrive, n)
    ensures var x, cbs := Outcome(a).At(side), CallbacksIn(a, side, n);
            && (0 <= level < LEVELS ==>
                  var sent := Transcribed(cbs, level, CAPACITY);
                  CryptoAnswer(x, level, hasOut, outLen) == if |sent| <= outLen && (sent == [] || hasOut) then Some(sent) else None)
            && (0 <= level < LEVELS && (direction == READ_SECRET || direction == WRITE_SECRET) ==>
                  SecretAnswer(x.secrets, level, direction, hasOut, outLen)
                  == if hasOut && outLen >= SECRET_LEN then LastSecret(cbs, level, direction) else None)
            && (!(0 <= level < LEVELS) ==>
                  CryptoAnswer(x, level, hasOut, outLen) == SecretAnswer(x.secrets, level, direction, hasOut, outLen) == None)
            && (direction != READ_SECRET && direction != WRITE_SECRET ==>
                  SecretAnswer(x.secrets, level, direction, hasOut, outLen) == None)
            && (Announced(None, cbs).Some? ==>
                  ParamsAnswer(x, outLen) == if |Announced(None, cbs).value| <= outLen then Announced(None, cbs) else None)
            && (Announced(None, cbs).None? ==> ParamsAnswer(x, outLen) == Some([]))
  {
    hide Outcome, Transcribed, LastSecret, Announced, CallbacksIn, StopsAt;
    OutcomeIsTold(a, n);
  }

  // ---- the tables ----

  datatype Available = Available(read: bool, write: bool)

  type Length = n: nat | n <= CAPACITY

  function Slab(a: array3<byte>, level: nat, direction: nat): (r: seq<byte>)
    requires level < a.Length0 && direction < a.Length1
    reads a
    ensures |r| == a.Length2 && forall i :: 0 <= i < a.Length2 ==> r[i] == a[level, direction, i]
  {
    seq(a.Length2, i requires 0 <= i < a.Length2 reads a => a[level, direction, i])
  }

  /** One side's tables. Stale bytes from earlier runs stay in `crypto` and `secrets`; only the
      lengths and the availability flags decide what is shown. */
  class SideTables {
    const crypto: array2<byte>
    var cryptoLen: PerLevel<Length>
    const params: array<byte>
    var paramsLen: nat
    const secrets: array3<byte>
    var available: PerLevel<Available>

    ghost predicate Valid()
      reads this`paramsLen
    {
      && crypto.Length0 == LEVELS && crypto.Length1 == CAPACITY
      && params.Length == PARAMS_CAPACITY && paramsLen <= PARAMS_CAPACITY
      && secrets.Length0 == LEVELS && secrets.Length1 == 2 && secrets.Length2 == SECRET_LEN
    }

    ghost function CryptoView(): (r: PerLevel<seq<byte>>)
      requires Valid()
      reads this`cryptoLen, this`paramsLen, crypto
      ensures forall l :: 0 <= l < LEVELS ==> r.At(l) == Row(crypto, l, cryptoLen.At(l))
    {
      PerLevel(Row(crypto, 0, cryptoLen.At(0)), Row(crypto, 1, cryptoLen.At(1)),
               Row(crypto, 2, cryptoLen.At(2)), Row(crypto, 3, cryptoLen.At(3)))
    }

    ghost function SecretsAt(l: nat): Secrets
      requires Valid() && l < LEVELS
      reads this`available, this`paramsLen, secrets
    {
      Secrets(if available.At(l).read then Some(Slab(secrets, l, 0)) else None,
              if available.At(l).write then Some(Slab(secrets, l, 1)) else None)
    }

    ghost function SecretsView(): (r: PerLevel<Secrets>)
      requires Valid()
      reads this`available, this`paramsLen, secrets
      ensures forall l :: 0 <= l < LEVELS ==> r.At(l) == SecretsAt(l)
    {
      PerLevel(SecretsAt(0), SecretsAt(1), SecretsAt(2), SecretsAt(3))
    }

    ghost function View(): Exported
      requires Valid()
      reads this, crypto, params, secrets
    {
      Exported(CryptoView(), params[..paramsLen], SecretsView())
    }

    constructor ()
      ensures Valid() && View() == NOTHING
      ensures fresh(crypto) && fresh(params) && fresh(secrets)
    {
      crypto, params, secrets := new byte[LEVELS, CAPACITY], new byte[PARAMS_CAPACITY], new byte[LEVELS, 2, SECRET_LEN];
      cryptoLen, paramsLen, available := Everywhere(0), 0, Everywhere(Available(false, false));
      new;
      SameLevels(CryptoView(), Everywhere([]));
      SameLevels(SecretsView(), Everywhere(Secrets(None, None)));
    }

    /** What a run clears before it starts: lengths, flags and the parameter bytes. */
    method Clear()
      requires Valid()
      modifies this, params
      ensures Valid() && View() == NOTHING
    {
      cryptoLen := Everywhere(0);
      forall i | 0 <= i < params.Length { params[i] := 0; }
      paramsLen := 0;
      available := Everywhere(Available(false, false));
      SameLevels(CryptoView(), Everywhere([]));
      SameLevels(SecretsView(), Everywhere(Secrets(None, None)));
    }

    method RecordCrypto(e: TlsEndpoint)
      requires Valid() && e.Valid() && crypto != e.history && crypto != e.outbound
      modifies this`cryptoLen, crypto
      ensures Valid() && e.OutputsView() == old(e.OutputsView())
      ensures forall l :: 0 <= l < LEVELS ==> CryptoView().At(l) == e.OutputsView().At(l).history
    {
      cryptoLen := Everywhere(0);
      var level := 0;
      while level < LEVELS
        invariant 0 <= level <= LEVELS && Valid()
        invariant forall l :: 0 <= l < level ==> CryptoView().At(l) == e.OutputView(l).history
        invariant e.OutputsView() == old(e.OutputsView())
      {
        CopyIn(crypto, level, 0, Row(e.history, level, e.outFill.At(level).history));
        cryptoLen := cryptoLen.With(level, e.outFill.At(level).history);
        assert Row(crypto, level, cryptoLen.At(level)) == e.OutputView(level).history;
        level := level + 1;
      }
    }

    method RecordParams(e: TlsEndpoint)
      requires Valid() && e.Valid() && params != e.peerParams
      modifies this`paramsLen, params
      ensures Valid() && params[..paramsLen] == e.peerParams[..e.peerParamsLen]
    {
      forall i | 0 <= i < params.Length { params[i] := 0; }
      paramsLen := e.peerParamsLen;
      forall i | 0 <= i < paramsLen { params[i] := e.peerParams[i]; }
    }

    /** Copies one secret if the endpoint has it; the flags were all lowered beforehand. */
    method RecordSecret(level: nat, direction: nat, secret: seq<byte>)
      requires Valid() && level < LEVELS && direction < 2 && |secret| == SECRET_LEN
      modifies this`available, secrets
      ensures Valid()
      ensures SecretsAt(level) == if direction == READ_SECRET then old(SecretsAt(level)).(read := Some(secret))
                                  else old(SecretsAt(level)).(write := Some(secret))
      ensures forall l :: 0 <= l < LEVELS && l != level ==> SecretsAt(l) == old(SecretsAt(l))
    {
      forall i | 0 <= i < SECRET_LEN { secrets[level, direction, i] := secret[i]; }
      var a := available.At(level);
      available := available.With(level, if direction == READ_SECRET then a.(read := true) else a.(write := true));
      assert Slab(secrets, level, direction) == secret;
      assert Slab(secrets, level, 1 - direction) == old(Slab(secrets, level, 1 - direction));
      assert forall l :: 0 <= l < LEVELS && l != level ==>
               Slab(secrets, l, 0) == old(Slab(secrets, l, 0)) && Slab(secrets, l, 1) == old(Slab(secrets, l, 1));
    }

    method RecordSecrets(from: PerLevel<Secrets>)
      requires Valid()
      requires forall l :: 0 <= l < LEVELS ==> RightLength(from.At(l).read) && RightLength(from.At(l).write)
      modifies this`available, secrets
      ensures Valid() && SecretsView() == from
    {
      available := Everywhere(Available(false, false));
      var level := 0;
      while level < LEVELS
        invariant 0 <= level <= LEVELS && Valid()
        invariant forall l :: 0 <= l < level ==> SecretsAt(l) == from.At(l)
        invariant forall l :: level <= l < LEVELS ==> SecretsAt(l) == Secrets(None, None)
      {
        var s := from.At(level);
        if s.read.Some? {
          RecordSecret(level, READ_SECRET, s.read.value);
        }
        if s.write.Some? {
          RecordSecret(level, WRITE_SECRET, s.write.value);
        }
        level := level + 1;
      }
      SameLevels(SecretsView(), from);
    }

    method CopyCrypto(level: int, hasOut: bool, outLen: nat) returns (r: Option<seq<byte>>)
      requires Valid()
      ensures r == CryptoAnswer(View(), level, hasOut, outLen)
    {
      if level < 0 || level >= LEVELS || cryptoLen.At(level) > outLen || (cryptoLen.At(level) != 0 && !hasOut) {
        return None;
      }
      return Some(Row(crypto, level, cryptoLen.At(level)));
    }

    method CopyParams(outLen: nat) returns (r: Option<seq<byte>>)
      requires Valid()
      ensures r == ParamsAnswer(View(), outLen)
    {
      if paramsLen > outLen {
        return None;
      }
      return Some(params[..paramsLen]);
    }

    method CopySecret(level: int, direction: int, hasOut: bool, outLen: nat) returns (r: Option<seq<byte>>)
      requires Valid()
      ensures r == SecretAnswer(View().secrets, level, direction, hasOut, outLen)
    {
      if level < 0 || level >= LEVELS || direction < 0 || direction >= 2 {
        return None;
      }
      var a := available.At(level);
      if !(if direction == READ_SECRET then a.read else a.write) || outLen < SECRET_LEN || !hasOut {
        return None;
      }
      return Some(Slab(secrets, level, direction));
    }

    /** The three copies made at the end of a run. */
    method Record(e: TlsEndpoint)
      requires Valid() && e.Valid() && Endpoints.Valid(e.View())
      requires crypto != e.history && crypto != e.outbound && crypto != e.inbound.bytes && params != e.peerParams
      modifies this, crypto, params, secrets
      ensures Valid() && View() == Export(old(e.View()))
    {
      ghost var goal := Export(e.View());
      RecordCrypto(e);
      SameLevels(CryptoView(), goal.crypto);
      RecordParams(e);
      forall l | 0 <= l < LEVELS
        ensures RightLength(e.secrets.At(l).read) && RightLength(e.secrets.At(l).write)
      {
        assert ValidLevel(old(e.View()), l);
      }
      RecordSecrets(e.secrets);
    }
  }

  // ---- the run ----

  datatype RunResult = RunResult(initialized: bool, clientDone: bool, serverDone: bool, iterations: nat,
                                 clientOut: PerLevel<nat>, serverOut: PerLevel<nat>)

  const NO_RESULT := RunResult(false, false, false, 0, Everywhere(0), Everywhere(0))

  function Totals(e: Endpoint): PerLevel<nat>
  {
    PerLevel(e.outputs.At(0).total, e.outputs.At(1).total, e.outputs.At(2).total, e.outputs.At(3).total)
  }

  function Lengths(x: Exported): PerLevel<nat>
  {
    PerLevel(|x.crypto.At(0)|, |x.crypto.At(1)|, |x.crypto.At(2)|, |x.crypto.At(3)|)
  }

  method HandshakeLoop(client: TlsEndpoint, server: TlsEndpoint, clientDrive: Oracle, serverDrive: Oracle)
    returns (iterations: nat)
    requires Separate(client, server) && client.Valid() && server.Valid()
    modifies client, client.inbound, client.inbound.bytes, client.outbound, client.history, client.peerParams
    modifies server, server.inbound, server.inbound.bytes, server.outbound, server.history, server.peerParams
    ensures client.Valid() && server.Valid()
    ensures (PerSide(client.View(), server.View()), iterations)
         == Loop(PerSide(old(client.View()), old(server.View())), clientDrive, serverDrive, 0)
  {
    hide TlsEndpoint.View, Iteration;
    ghost var goal := Loop(PerSide(client.View(), server.View()), clientDrive, serverDrive, 0);
    iterations := 0;
    while iterations < MAX_ITERATIONS
      invariant iterations <= MAX_ITERATIONS && client.Valid() && server.Valid()
      invariant Loop(PerSide(client.View(), server.View()), clientDrive, serverDrive, iterations) == goal
    {
      ghost var ends := PerSide(client.View(), server.View());
      client.DoneShows();
      server.DoneShows();
      if client.done && server.done {
        break;
      }
      var ok := OneIteration(client, server, clientDrive(iterations), serverDrive(iterations));
      LoopTurns(ends, clientDrive, serverDrive, iterations, PerSide(client.View(), server.View()), ok);
      if !ok {
        break;
      }
      iterations := iterations + 1;
    }
  }

  lemma LoopTurns(ends: PerSide<Endpoint>, clientDrive: Oracle, serverDrive: Oracle, i: nat, next: PerSide<Endpoint>, ok: bool)
    requires i < MAX_ITERATIONS && !(ends.client.done && ends.server.done)
    requires Iteration(ends, clientDrive(i), serverDrive(i)) == (next, ok)
    ensures Loop(ends, clientDrive, serverDrive, i) == if ok then Loop(next, clientDrive, serverDrive, i + 1) else (next, i)
  {
  }

  method OneIteration(client: TlsEndpoint, server: TlsEndpoint, clientDrive: Drive, serverDrive: Drive) returns (ok: bool)
    requires Separate(client, server) && client.Valid() && server.Valid()
    modifies client, client.inbound, client.inbound.bytes, client.outbound, client.history, client.peerParams
    modifies server, server.inbound, server.inbound.bytes, server.outbound, server.history, server.peerParams
    ensures client.Valid() && server.Valid()
    ensures (PerSide(client.View(), server.View()), ok)
         == Iteration(PerSide(old(client.View()), old(server.View())), clientDrive, serverDrive)
  {
    ok := DriveAndPump(client, server, clientDrive);
    if ok {
      ok := DriveAndPump(server, client, serverDrive);
    }
  }

  method DriveAndPump(from: TlsEndpoint, to: TlsEndpoint, d: Drive) returns (ok: bool)
    requires Separate(from, to) && from.Valid() && to.Valid()
    modifies from, from.inbound, from.inbound.bytes, from.outbound, from.history, from.peerParams
    modifies to.inbound, to.inbound.bytes
    ensures from.Valid() && to.Valid()
    ensures (from.View(), to.View(), ok) == Pump(DriveHandshake(old(from.View()), d), old(to.View()))
  {
    from.DriveHandshake(d);
    assert to.View() == old(to.View());
    ok := PumpCrypto(from, to);
  }

  /** Two new endpoints and a loop over them. */
  method FreshHandshake(clientDrive: Oracle, serverDrive: Oracle) returns (c: TlsEndpoint, s: TlsEndpoint, iterations: nat)
    ensures c.Valid() && s.Valid()
    ensures fresh(c.inbound.bytes) && fresh(c.outbound) && fresh(c.history) && fresh(c.peerParams)
    ensures fresh(s.inbound.bytes) && fresh(s.outbound) && fresh(s.history) && fresh(s.peerParams)
    ensures (PerSide(c.View(), s.View()), iterations) == Loop(NEW_ENDS, clientDrive, serverDrive, 0)
  {
    hide TlsEndpoint.View, Loop;
    c := new TlsEndpoint();
    s := new TlsEndpoint();
    iterations := HandshakeLoop(c, s, clientDrive, serverDrive);
  }

  // ---- the store ----

  /** The program's file-level tables: both sides' exports and the configured parameters. */
  class TranscriptStore {
    const client: SideTables
    const server: SideTables
    const clientConfig: array<byte>
    const serverConfig: array<byte>
    var clientConfigLen: nat
    var serverConfigLen: nat
    var configured: bool

    ghost predicate Valid()
      reads this, client, server
    {
      && client.Valid() && server.Valid() && client != server
      && client.crypto != server.crypto && client.params != server.params && client.secrets != server.secrets
      && clientConfig.Length == serverConfig.Length == PARAMS_CAPACITY && clientConfig != serverConfig
      && clientConfig !in {client.params, server.params} && serverConfig !in {client.params, server.params}
      && clientConfigLen <= PARAMS_CAPACITY && serverConfigLen <= PARAMS_CAPACITY
    }

    ghost function View(): PerSide<Exported>
      requires Valid()
      reads this, client, client.crypto, client.params, client.secrets
      reads server, server.crypto, server.params, server.secrets
    {
      PerSide(client.View(), server.View())
    }

    constructor ()
      ensures Valid() && View() == PerSide(NOTHING, NOTHING)
    {
      hide SideTables.View;
      client := new SideTables();
      server := new SideTables();
      clientConfig, serverConfig := new byte[PARAMS_CAPACITY], new byte[PARAMS_CAPACITY];
      clientConfigLen, serverConfigLen, configured := 0, 0, false;
    }

    /** Sets the parameters the next endpoints will offer; shows nothing by itself. */
    method Configure(clientParams: seq<byte>, serverParams: seq<byte>) returns (ok: bool)
      requires Valid()
      modifies this`clientConfigLen, this`serverConfigLen, this`configured, clientConfig, serverConfig
      ensures Valid() && View() == old(View())
      ensures ok <==> |clientParams| <= PARAMS_CAPACITY && |serverParams| <= PARAMS_CAPACITY
      ensures ok ==> configured && clientConfig[..clientConfigLen] == clientParams && serverConfig[..serverConfigLen] == serverParams
      ensures !ok ==> configured == old(configured) && clientConfig[..clientConfigLen] == old(clientConfig[..clientConfigLen])
                      && serverConfig[..serverConfigLen] == old(serverConfig[..serverConfigLen])
    {
      hide SideTables.View;
      if |clientParams| > clientConfig.Length || |serverParams| > serverConfig.Length {
        return false;
      }
      forall i | 0 <= i < clientConfig.Length { clientConfig[i] := if i < |clientParams| then clientParams[i] else 0; }
      forall i | 0 <= i < serverConfig.Length { serverConfig[i] := if i < |serverParams| then serverParams[i] else 0; }
      clientConfigLen, serverConfigLen, configured := |clientParams|, |serverParams|, true;
      return true;
    }

    /** A whole run. What the accessors show afterwards is the outcome of this run alone, failed
        or not: for each side the fold of the callbacks made. An initialized run stops where the
        return codes say, and the byte counts it reports are the lengths the crypto accessors
        export. */
    method Run(a: Attempt) returns (result: RunResult)
      requires Valid()
      modifies client, client.crypto, client.params, client.secrets
      modifies server, server.crypto, server.params, server.secrets
      ensures Valid() && View() == Outcome(a)
      ensures result.initialized == a.initOk
      ensures a.initOk ==>
                && StopsAt(a.clientDrive, a.serverDrive, result.iterations)
                && (result.clientDone <==> Returned(a.clientDrive, result.iterations))
                && (result.serverDone <==> Returned(a.serverDrive, result.iterations))
      ensures View() == PerSide(ToldExport(CallbacksIn(a, Client, result.iterations)),
                                ToldExport(CallbacksIn(a, Server, result.iterations)))
      ensures result.clientOut == Lengths(View().client) && result.serverOut == Lengths(View().server)
    {
      hide TlsEndpoint.View, SideTables.View, Loop, Totals, Lengths, Export, CountsOf, Endpoints.Valid;
      hide StopsAt, Returned, ToldExport, CallbacksIn, Outcome;
      client.Clear();
      server.Clear();
      NothingHasNoBytes();
      result := NO_RESULT;
      if !a.initOk {
        FailedRun(a);
        return;
      }
      var c, s, iterations := FreshHandshake(a.clientDrive, a.serverDrive);
      ghost var ends := PerSide(c.View(), s.View());
      LoopFacts(a, ends, iterations);
      c.DoneShows();
      s.DoneShows();
      CountsShow(c);
      CountsShow(s);
      result := RunResult(true, c.done, s.done, iterations, CountsOf(c), CountsOf(s));
      client.Record(c);
      server.Record(s);
    }

    /** After any sequence of configurations and runs, the accessors show the last run. */
    method Perform(ops: seq<Operation>)
      requires Valid()
      modifies this`clientConfigLen, this`serverConfigLen, this`configured, clientConfig, serverConfig
      modifies client, client.crypto, client.params, client.secrets
      modifies server, server.crypto, server.params, server.secrets
      ensures Valid() && View() == LatestRun(ops, old(View()))
    {
      hide SideTables.View, Outcome;
      var i := 0;
      while i < |ops|
        invariant 0 <= i <= |ops| && Valid()
        invariant View() == LatestRun(ops[..i], old(View()))
      {
        assert ops[..i + 1][..i] == ops[..i];
        match ops[i] {
          case Configuring(c, s) => var _ := Configure(c, s);
          case Running(a) => var _ := Run(a);
        }
        i := i + 1;
      }
      assert ops[..|ops|] == ops;
    }
  }

  datatype Operation = Configuring(clientParams: seq<byte>, serverParams: seq<byte>) | Running(attempt: Attempt)

  /** The outcome of the last run in the sequence, wherever it is; the given exports if there is none. */
  function LatestRun(ops: seq<Operation>, before: PerSide<Exported>): PerSide<Exported>
  {
    if ops == [] then before
    else match ops[|ops| - 1]
      case Configuring(_, _) => LatestRun(ops[..|ops| - 1], before)
      case Running(a) => Outcome(a)
  }

  function CountsOf(e: TlsEndpoint): PerLevel<nat>
    reads e
  {
    PerLevel(e.outFill.At(0).total, e.outFill.At(1).total, e.outFill.At(2).total, e.outFill.At(3).total)
  }

  /** What the caller of the loop may conclude about the endpoints it ended with. */
  lemma LoopFacts(a: Attempt, ends: PerSide<Endpoint>, iterations: nat)
    requires (ends, iterations) == Loop(NEW_ENDS, a.clientDrive, a.serverDrive, 0)
    ensures Endpoints.Valid(ends.client) && Endpoints.Valid(ends.server)
    ensures StopsAt(a.clientDrive, a.serverDrive, iterations)
    ensures ends.client.done <==> Returned(a.clientDrive, iterations)
    ensures ends.server.done <==> Returned(a.serverDrive, iterations)
    ensures a.initOk ==> Outcome(a) == PerSide(Export(ends.client), Export(ends.server))
    ensures a.initOk ==>
              Outcome(a) == PerSide(ToldExport(CallbacksIn(a, Client, iterations)), ToldExport(CallbacksIn(a, Server, iterations)))
    ensures Totals(ends.client) == Lengths(Export(ends.client)) && Totals(ends.server) == Lengths(Export(ends.server))
  {
    hide Loop, StopsAt, Returned, ToldExport, CallbacksIn, LoopDrives, Totals, Lengths, Reaches;
    NewWorldValid();
    NewEndsAreOpen(a.clientDrive, a.serverDrive);
    LoopReaches(NEW_ENDS, a.clientDrive, a.serverDrive, 0, false);
    LoopStops(NEW_ENDS, a.clientDrive, a.serverDrive, 0);
    OutcomeIsTold(a, iterations);
    ReachesKeepsValid(NEW_WORLD, Quiet(ends), false, LoopDrives(a.clientDrive, a.serverDrive, 0, iterations));
    assert Endpoints.Valid(Quiet(ends).ends.At(Client)) && Endpoints.Valid(Quiet(ends).ends.At(Server));
    CountsAreLengths(ends.client);
    CountsAreLengths(ends.server);
  }

  lemma FailedRun(a: Attempt)
    requires !a.initOk
    ensures Outcome(a) == PerSide(NOTHING, NOTHING)
    ensures forall side, n: nat :: ToldExport(CallbacksIn(a, side, n)) == NOTHING
  {
    assert ToldExport([]) == NOTHING;
  }

  lemma CountsAreLengths(e: Endpoint)
    requires Endpoints.Valid(e)
    ensures Totals(e) == Lengths(Export(e))
  {
    assert ValidLevel(e, 0) && ValidLevel(e, 1) && ValidLevel(e, 2) && ValidLevel(e, 3);
  }

  lemma NothingHasNoBytes()
    ensures Lengths(NOTHING) == Everywhere(0)
  {
  }

  lemma CountsShow(e: TlsEndpoint)
    requires e.Valid()
    ensures CountsOf(e) == Totals(e.View())
  {
  }
}
