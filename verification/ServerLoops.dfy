/** The server's waiting loops over the bytes of the control channel. */
module ServerLoops {
  import opened Common
  import opened Wire
  import CP = ControlProtocol

  /** The message a control byte stands for, if any. */
  function Meaning(b: Byte): Option<Message> { FromCode(AsI8(b)) }

  /** Byte `k` is the first wanted message, and everything before it is some other message. */
  predicate FirstAt(s: seq<Byte>, wanted: set<Message>, k: nat) {
    && k < |s| && Wanted(s[k], wanted)
    && forall j :: 0 <= j < k ==> Skipped(s[j], wanted)
  }

  predicate Wanted(b: Byte, wanted: set<Message>) {
    Meaning(b).Some? && Meaning(b).value in wanted
  }

  predicate Skipped(b: Byte, wanted: set<Message>) {
    Meaning(b).Some? && Meaning(b).value !in wanted
  }

  /** Returns when it has read up to the first TestEnd and no further; any other message before it is
      skipped. On a reliable socket it fails only when there is no such TestEnd: the stream ends, or
      a byte that is no message comes first. */
  method WaitForTestEnd(sock: Socket) returns (r: Result<(), IoError>)
    modifies sock`incoming
    ensures r.Ok? ==> exists k :: FirstAt(old(sock.incoming), {TestEnd}, k)
                                  && sock.incoming == old(sock.incoming)[k + 1..]
    ensures sock.reliable && r.Err? ==> !exists k :: FirstAt(old(sock.incoming), {TestEnd}, k)
  {
    ghost var k := 0;
    ghost var s := sock.incoming;
    while true
      invariant k <= |s| && sock.incoming == s[k..]
      invariant forall j :: 0 <= j < k ==> Skipped(s[j], {TestEnd})
      decreases |sock.incoming|
    {
      var got := RecvControlByte(sock);
      if got.Err? {
        assert sock.reliable ==> k == |s| || Meaning(s[k]).None?;
        return Err(got.error);
      }
      assert Meaning(s[k]) == Some(got.value.message);
      if got.value.message == TestEnd {
        assert FirstAt(s, {TestEnd}, k);
        return Ok(());
      }
      k := k + 1;
    }
  }

  /** Announces the results and returns at the first message that says the client is done. */
  method FinalizeTest(sock: Socket) returns (r: Result<(), IoError>)
    modifies sock
    ensures r.Ok? ==> sock.written == old(sock.written) + Encode(Control(DisplayResults))
    ensures r.Ok? ==> exists k :: FirstAt(old(sock.incoming), {IperfDone, ClientTerminate}, k)
                                  && sock.incoming == old(sock.incoming)[k + 1..]
    ensures sock.reliable && r.Err? ==> !exists k :: FirstAt(old(sock.incoming), {IperfDone, ClientTerminate}, k)
  {
    ghost var wanted := {IperfDone, ClientTerminate};
    ghost var k := 0;
    ghost var s := sock.incoming;
    r := SendControlByte(sock, DisplayResults);
    if r.Err? {
      return;
    }
    while true
      invariant k <= |s| && sock.incoming == s[k..]
      invariant sock.written == old(sock.written) + Encode(Control(DisplayResults))
      invariant forall j :: 0 <= j < k ==> Skipped(s[j], wanted)
      decreases |sock.incoming|
    {
      var got := RecvControlByte(sock);
      if got.Err? {
        assert sock.reliable ==> k == |s| || Meaning(s[k]).None?;
        return Err(got.error);
      }
      assert Meaning(s[k]) == Some(got.value.message);
      if got.value.message == IperfDone || got.value.message == ClientTerminate {
        assert FirstAt(s, wanted, k);
        return Ok(());
      }
      k := k + 1;
    }
  }

  /** The server of the protocol waits as these loops do: it reads any message, and goes on exactly at one
      that is wanted. */
  lemma ProtocolWaitsAlike(p: CP.Params, s: CP.State, b: Byte)
    requires s.spc in {CP.WaitTestEnd, CP.WaitDone} && Meaning(b).Some?
    requires s.serverRead < |s.clientLog| && s.clientLog[s.serverRead] == CP.Ctl(Meaning(b).value)
    ensures var (wanted, next) :=
              if s.spc == CP.WaitTestEnd then ({TestEnd}, CP.JoinReaders) else ({IperfDone, ClientTerminate}, CP.ServerDone);
            CP.ServerStep(p, s) ==
            s.(serverRead := s.serverRead + 1, spc := if Wanted(b, wanted) then next else s.spc)
  {}
}
