/**
 * The service that has an account profile: one session works on the service's own receiver, and the owner
 * thread alone works on the session.
 */
module OwnedProfiles {
  import opened Common
  import opened Receivers
  import opened EvaluatedReceivers
  import opened AccountSessions
  import opened Evaluators
  import opened OwnedServices

  class ProfiledService {
    const service: OwnedService
    const session: AccountSession

    ghost predicate Valid()
      reads service, service.receiver, service.receiver.library, service.receiver.receiver,
            service.receiver.receiver.session, service.receiver.receiver.session.assembler, service.receiver.evaluator,
            session, session.events
    {
      session.receiver == service.receiver && service.Valid() && session.Valid()
    }

    ghost function Model(): Service
      requires Valid()
      reads service, service.receiver, service.receiver.library, service.receiver.receiver,
            service.receiver.receiver.session, service.receiver.receiver.session.assembler, service.receiver.evaluator,
            session, session.events, session.store
    {
      service.Model().(profile := Some(session.Model().(adapter := NO_ADAPTER)))
    }

    constructor (capacity: nat, limits: Limits, now: real, stored: Option<Credentials>)
      requires limits.Valid()
      ensures Valid() && Model() == Begin(limits, capacity, now, Some(stored))
    {
      var plain := new OwnedService(capacity, limits, now);
      var store := new CredentialStore(stored);
      service := plain;
      session := new AccountSession(plain.receiver, store);
    }

    lemma SessionIsModelled()
      requires Valid()
      ensures SessionOf(Model()) == session.Model() && Model().limits == service.receiver.receiver.limits
    {
    }

    // ----- Called from any thread -----

    method ClearAccount(forget: bool)
      requires Valid()
      modifies service
      ensures Valid() && Model() == ClearedBy(old(Model()), forget)
    {
      hide OwnedService.Valid, AccountSession.Valid, AccountSession.Model;
      SetReset(true);
      Empty();
      Identify(None, service.epoch + 1);
      Queue(Drop(forget));
    }

    method RunAccount(calls: seq<SessionCall>)
      requires Valid()
      modifies service`commands
      ensures Valid() && Model() == old(Model()).(commands := old(Model()).commands + [Callback(calls)])
    {
      Queue(Callback(calls));
    }

    // ----- One field or queue at a time -----

    method SetReset(pending: bool)
      requires Valid()
      modifies service`reset
      ensures Valid() && Model() == old(Model()).(reset := pending)
    {
      hide EvaluatedReceiver.Valid, EvaluatedReceiver.Model, AccountSession.Model;
      service.reset := pending;
    }

    method Identify(account: Option<string>, epoch: nat)
      requires Valid()
      modifies service`account, service`epoch
      ensures Valid() && Model() == old(Model()).(account := account, epoch := epoch)
    {
      hide EvaluatedReceiver.Valid, EvaluatedReceiver.Model, AccountSession.Model;
      service.account, service.epoch := account, epoch;
    }

    method Queue(command: Command)
      requires Valid()
      modifies service`commands
      ensures Valid() && Model() == old(Model()).(commands := old(Model()).commands + [command])
    {
      hide EvaluatedReceiver.Valid, EvaluatedReceiver.Model, AccountSession.Model;
      service.commands := service.commands + [command];
    }

    method SetStage(stage: Stage)
      requires Valid()
      modifies service`stage
      ensures Valid() && Model() == old(Model()).(stage := stage)
    {
      hide EvaluatedReceiver.Valid, EvaluatedReceiver.Model, AccountSession.Model;
      service.stage := stage;
    }

    method Empty()
      requires Valid()
      modifies service`frameGeneration, service`latest, service`frames, service`unlocks
      ensures Valid() && Model() == Discarded(old(Model()))
    {
      hide EvaluatedReceiver.Valid, EvaluatedReceiver.Model, AccountSession.Model;
      service.DiscardFrame();
    }

    // ----- Called from the owner thread only -----

    /** One call on the session. */
    method Call(x: SessionCall)
      requires Valid()
      modifies session, session.cancel, session.store
      modifies service.receiver, service.receiver.library, service.receiver.receiver, service.receiver.receiver.session,
               service.receiver.receiver.session.assembler, service.receiver.evaluator
      ensures Valid() && session.OnlyNew()
      ensures session.Model() == AccountRuns.Take(service.receiver.receiver.limits, old(session.Model()), x).0
      ensures service.Model() == old(service.Model()).(adapter := session.Model().adapter)
    {
      hide BegunSignIn, BegunSet, BegunRequest, Settled, LoggedOut, EvaluatedReceiver.Valid, EvaluatedReceiver.Model;
      match x
      case SignIn(operation) => var _ := session.BeginSignIn(operation);
      case Qualify(game, gameId, consoleId) => var _ := session.BeginSet(game, gameId, consoleId);
      case Ask(request) => var _ := session.BeginRequest(request);
      case Accept(job, result, commit) => var _ := session.Accept(job, result, commit);
      case Logout(forget, removed) => var _ := session.Logout(forget, removed);
      case CancelCurrent => session.SetCancel();
    }

    /** The service shows whom the session is signed in as. */
    method Show()
      requires Valid()
      modifies service`account, service`epoch
      ensures Valid() && Model() == WithSession(old(Model()), session.Model())
      ensures session.Model() == old(session.Model())
    {
      hide EvaluatedReceiver.Valid, EvaluatedReceiver.Model;
      service.account := if session.credentials.Some? then Some(session.credentials.value.username) else None;
      service.epoch := session.epoch;
    }

    method RunCalls(calls: seq<SessionCall>)
      requires Valid()
      modifies session, session.cancel, session.store
      modifies service.receiver, service.receiver.library, service.receiver.receiver, service.receiver.receiver.session,
               service.receiver.receiver.session.assembler, service.receiver.evaluator
      ensures Valid() && session.OnlyNew()
      ensures session.Model() == Called(service.receiver.receiver.limits, old(session.Model()), calls)
      ensures service.Model() == old(service.Model()).(adapter := session.Model().adapter)
    {
      hide AccountRuns.Take, OwnedService.Valid, OwnedService.Model, AccountSession.Valid, AccountSession.Model;
      SessionIsModelled();
      for i := 0 to |calls|
        invariant Valid() && session.OnlyNew()
        invariant session.Model() == Called(service.receiver.receiver.limits, old(session.Model()), calls[..i])
        invariant service.Model() == old(service.Model()).(adapter := session.Model().adapter)
      {
        assert calls[..i + 1][..i] == calls[..i];
        Call(calls[i]);
      }
      assert calls[..|calls|] == calls;
    }

    method BindReceiver(a: Account)
      requires Valid()
      modifies service.receiver, service.receiver.library, service.receiver.receiver, service.receiver.receiver.session,
               service.receiver.receiver.session.assembler, service.receiver.evaluator
      ensures Valid() && session.OnlyNew()
      ensures Model() == old(Model()).(adapter := Bound(old(Model()).adapter, a))
    {
      hide Bound, EvaluatedReceiver.Valid, EvaluatedReceiver.Model;
      service.receiver.BindAccount(a);
    }

    method Bind(a: Account)
      requires Valid()
      modifies service`account, service`epoch
      modifies session, session.cancel, session.store
      modifies service.receiver, service.receiver.library, service.receiver.receiver, service.receiver.receiver.session,
               service.receiver.receiver.session.assembler, service.receiver.evaluator
      ensures Valid() && session.OnlyNew() && Model() == Obeyed(old(Model()), BindTo(a))
    {
      hide Bound, OwnedService.Valid, OwnedService.Model, AccountSession.Valid, AccountSession.Model;
      BindReceiver(a);
      Identify(Some(a.name), a.epoch);
    }

    method LogOut(forget: bool)
      requires Valid()
      modifies service`account, service`epoch
      modifies session, session.cancel, session.store
      modifies service.receiver, service.receiver.library, service.receiver.receiver, service.receiver.receiver.session,
               service.receiver.receiver.session.assembler, service.receiver.evaluator
      ensures Valid() && session.OnlyNew()
      ensures Model() == WithSession(old(Model()), LoggedOut(SessionOf(old(Model())), forget, true).0)
    {
      hide LoggedOut, EvaluatedReceiver.Valid, EvaluatedReceiver.Model;
      SessionIsModelled();
      var _ := session.Logout(forget, true);
      Show();
    }

    method CallBack(calls: seq<SessionCall>)
      requires Valid()
      modifies service`account, service`epoch, service`frameGeneration, service`latest, service`frames, service`unlocks
      modifies session, session.cancel, session.store
      modifies service.receiver, service.receiver.library, service.receiver.receiver, service.receiver.receiver.session,
               service.receiver.receiver.session.assembler, service.receiver.evaluator
      ensures Valid() && session.OnlyNew() && Model() == Obeyed(old(Model()), Callback(calls))
    {
      hide Called, Discarded, OwnedService.Valid, OwnedService.Model, AccountSession.Valid, AccountSession.Model;
      SessionIsModelled();
      RunCalls(calls);
      Show();
      Check();
    }

    method Check()
      requires Valid()
      modifies service`frameGeneration, service`latest, service`frames, service`unlocks
      ensures Valid() && Model() == Checked(old(Model()))
    {
      hide EvaluatedReceiver.Valid, EvaluatedReceiver.Model, AccountSession.Model;
      service.CheckGeneration();
    }

    method Obey(command: Command)
      requires Valid()
      modifies service`account, service`epoch, service`frameGeneration, service`latest, service`frames, service`unlocks
      modifies session, session.cancel, session.store
      modifies service.receiver, service.receiver.library, service.receiver.receiver, service.receiver.receiver.session,
               service.receiver.receiver.session.assembler, service.receiver.evaluator
      ensures Valid() && session.OnlyNew() && Model() == Obeyed(old(Model()), command)
    {
      hide Bound, LoggedOut, Called, OwnedService.Valid, OwnedService.Model, AccountSession.Valid, AccountSession.Model;
      match command
      case BindTo(a) => Bind(a);
      case Drop(forget) => LogOut(forget);
      case Callback(calls) => CallBack(calls);
    }

    method Next() returns (command: Command)
      requires Valid() && service.commands != []
      modifies service`commands
      ensures Valid() && command == old(Model()).commands[0]
      ensures Model() == old(Model()).(commands := old(Model()).commands[1..])
      ensures service.commands == old(service.commands)[1..]
    {
      hide EvaluatedReceiver.Valid, EvaluatedReceiver.Model, AccountSession.Model;
      command, service.commands := service.commands[0], service.commands[1..];
    }

    lemma NothingLeft()
      requires Valid() && service.commands == []
      ensures Commanded(Model()) == Model()
    {
      hide Obeyed, AccountSession.Model;
    }

    method DrainCommands()
      requires Valid()
      modifies service`account, service`epoch, service`frameGeneration, service`latest, service`frames, service`unlocks,
               service`commands
      modifies session, session.cancel, session.store
      modifies service.receiver, service.receiver.library, service.receiver.receiver, service.receiver.receiver.session,
               service.receiver.receiver.session.assembler, service.receiver.evaluator
      ensures Valid() && session.OnlyNew() && Model() == Commanded(old(Model()))
    {
      hide Obeyed, Commanded, OwnedService.Valid, AccountSession.Valid, AccountSession.Model;
      while service.commands != []
        invariant Valid() && session.OnlyNew() && Commanded(Model()) == Commanded(old(Model()))
        decreases |service.commands|
      {
        ghost var before := Model();
        var command := Next();
        Obey(command);
        ObeyedCommands(before, command);
      }
      NothingLeft();
    }

    method CarryOutReset()
      requires Valid()
      modifies service`reset, service`frameGeneration, service`latest, service`frames, service`unlocks
      modifies session, session.cancel, session.store
      modifies service.receiver, service.receiver.library, service.receiver.receiver, service.receiver.receiver.session,
               service.receiver.receiver.session.assembler, service.receiver.evaluator
      ensures Valid() && session.OnlyNew()
      ensures Model() == Discarded(old(Model())).(adapter := Released(old(Model()).adapter), reset := false)
    {
      hide Released, Discarded, OwnedService.Valid, OwnedService.Model, AccountSession.Valid, AccountSession.Model;
      ResetReceiver();
      Empty();
      DiscardingKeepsReceiver(old(Model()), Released(old(Model()).adapter));
      SetReset(false);
    }

    method ResetReceiver()
      requires Valid()
      modifies service.receiver, service.receiver.library, service.receiver.receiver, service.receiver.receiver.session,
               service.receiver.receiver.session.assembler, service.receiver.evaluator
      ensures Valid() && session.OnlyNew()
      ensures Model() == old(Model()).(adapter := Released(old(Model()).adapter))
    {
      hide Released, EvaluatedReceiver.Valid, EvaluatedReceiver.Model;
      service.receiver.Reset();
    }

    lemma DiscardingKeepsReceiver(s: Service, a: Sane)
      ensures Discarded(s.(adapter := a)) == Discarded(s).(adapter := a)
    {
    }

    /** The locked section at the top of the owner's loop. */
    method Top()
      requires Valid() && service.stage == AtTop
      modifies service
      modifies session, session.cancel, session.store
      modifies service.receiver, service.receiver.library, service.receiver.receiver, service.receiver.receiver.session,
               service.receiver.receiver.session.assembler, service.receiver.evaluator
      ensures Valid() && Model() == ToppedUp(old(Model()))
    {
      hide Released, Commanded, Discarded, OwnedService.Valid, AccountSession.Valid, AccountSession.Model;
      if service.reset { CarryOutReset(); }
      DrainCommands();
      SetStage(Working);
    }

    method ReleaseAll()
      requires Valid()
      modifies service
      modifies session, session.cancel, session.store
      modifies service.receiver, service.receiver.library, service.receiver.receiver, service.receiver.receiver.session,
               service.receiver.receiver.session.assembler, service.receiver.evaluator
      ensures Valid()
      ensures Model() == Discarded(old(Model())).(adapter := Released(old(Model()).adapter), account := None, epoch := 0,
                                                  stage := Halted)
    {
      hide Released, Discarded, OwnedService.Valid, OwnedService.Model, AccountSession.Valid, AccountSession.Model;
      ResetReceiver();
      Empty();
      DiscardingKeepsReceiver(old(Model()), Released(old(Model()).adapter));
      Identify(None, 0);
      SetStage(Halted);
    }

    /** The end of the owner thread: commands obeyed, the session signed out, everything released. */
    method Shutdown()
      requires Valid()
      modifies service
      modifies session, session.cancel, session.store
      modifies service.receiver, service.receiver.library, service.receiver.receiver, service.receiver.receiver.session,
               service.receiver.receiver.session.assembler, service.receiver.evaluator
      ensures Valid() && Model() == Stopped(old(Model()))
    {
      hide Released, Commanded, Discarded, LoggedOut, OwnedService.Valid, OwnedService.Model, AccountSession.Valid,
           AccountSession.Model;
      DrainCommands();
      SessionIsModelled();
      LogOut(false);
      ReleaseAll();
    }

    method ReceiveDatagram(at: real, fedAt: real, peer: Option<Endpoint>, packet: Packet, native: NativeReply)
      returns (output: EvaluatedOutput)
      requires Valid()
      modifies session, session.cancel, session.store
      modifies service.receiver, service.receiver.library, service.receiver.receiver, service.receiver.receiver.session,
               service.receiver.receiver.session.assembler, service.receiver.evaluator
      ensures Valid() && session.OnlyNew()
      ensures var (a, out) := Handled(Model().limits, old(Model()).adapter, at, fedAt, peer, packet, native);
        output == out && Model() == old(Model()).(adapter := a)
    {
      hide Handled, EvaluatedReceiver.Valid, EvaluatedReceiver.Model;
      output := service.receiver.Receive(at, fedAt, peer, packet, native);
    }

    method Receive(n: nat, at: real, fedAt: real, peer: Option<Endpoint>, packet: Packet, native: NativeReply)
      requires Valid() && service.stage == Listening
      modifies service
      modifies session, session.cancel, session.store
      modifies service.receiver, service.receiver.library, service.receiver.receiver, service.receiver.receiver.session,
               service.receiver.receiver.session.assembler, service.receiver.evaluator
      ensures Valid() && Model() == ReceivedBy(old(Model()), n, at, fedAt, peer, packet, native)
    {
      hide Handled, Stopped, OwnedService.Valid, AccountSession.Valid, AccountSession.Model;
      SessionIsModelled();
      var output := ReceiveDatagram(at, fedAt, peer, packet, native);
      if output.evaluation == Some(Result.Raised) { Shutdown(); } else { SetStage(Holding(Item(n, output))); }
    }
  }
}
