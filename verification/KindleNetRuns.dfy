/** Geometry agreement, and what holds of every run of the device's transport. */
module KindleNetRuns {
  import opened Machine
  import opened WirePayload
  import opened KindleNet
  import opened KindleNetSafety

  // ---------- Geometry ----------

  lemma QuietMainKeepsGeometry(s: State, a: Action)
    requires SlotInv(s) && GeometryInv(s) && NextMain(s, a).Some?
    requires !a.Promote? && !a.EnqueueViewport? && !a.EnqueuePointer?
    ensures GeometryInv(NextMain(s, a).value)
  {
    hide LastGeometry, Stamped, PointersAgree;
    var u := NextMain(s, a).value;
    assert u.log == s.log && u.streams == s.streams && u.stale == s.stale && u.reconnector == s.reconnector;
  }

  lemma PromoteKeepsGeometry(s: State, a: Action)
    requires QueueInv(s) && TokenInv(s) && GeometryInv(s) && NextMain(s, a).Some? && a.Promote?
    ensures GeometryInv(NextMain(s, a).value)
  {
    MainLinksStep(s, a);
    MainHistoryStep(s, a);
    NothingStamped(s, 0);
    hide NextMain, Installed;
    hide Stamped;
  }

  lemma PointersAgreeAppend(hello: Viewport, ms: seq<Outbound>, o: Outbound)
    requires PointersAgree(hello, ms)
    requires o.payload.PointerPayload? ==> (LastGeometry(hello, ms) == o.at <==> !o.stale)
    ensures PointersAgree(hello, ms + [o])
  {
    hide LastGeometry;
    forall k | 0 <= k < |ms + [o]| && (ms + [o])[k].payload.PointerPayload?
      ensures LastGeometry(hello, (ms + [o])[..k]) == (ms + [o])[k].at <==> !(ms + [o])[k].stale
    {
      assert (ms + [o])[..k] == ms[..k];
      if k == |ms| {
        assert ms[..k] == ms;
      }
    }
  }

  /** One more queued message: nothing changes for the other sessions. */
  lemma EnqueuedGeometry(s: State, u: State, o: Outbound, t: nat)
    requires Installed(s, t) && u.streams == s.streams && u.log == s.log + [o]
    requires PointersAgree(s.streams[t].hello.value, Stamped(s.log, t))
    requires o.token == t && o.payload.PointerPayload? ==> (Told(s, t) == o.at <==> !o.stale)
    ensures Installed(u, t) && PointersAgree(u.streams[t].hello.value, Stamped(u.log, t))
    ensures Told(u, t) ==
            if o.token == t && o.payload.ViewportPayload? then o.payload.viewport else Told(s, t)
  {
    hide PointersAgree;
    StampedAppend(s.log, o, t);
    if o.token == t {
      PointersAgreeAppend(s.streams[t].hello.value, Stamped(s.log, t), o);
      GeometryAppend(s.streams[t].hello.value, Stamped(s.log, t), o);
    } else {
      assert Stamped(u.log, t) == Stamped(s.log, t);
    }
  }

  lemma EnqueueViewportKeepsGeometry(s: State, a: Action)
    requires TokenInv(s) && GeometryInv(s) && NextMain(s, a).Some? && a.EnqueueViewport?
    ensures GeometryInv(NextMain(s, a).value)
  {
    hide Stamped, LastGeometry, PointersAgree, Told;
    var u := NextMain(s, a).value;
    if |s.queue| < OUTBOUND_QUEUE_CAPACITY {
      var o := Outbound(s.main.token, ViewportPayload(s.viewport), s.viewport, false);
      forall t: nat | Installed(u, t)
        ensures PointersAgree(u.streams[t].hello.value, Stamped(u.log, t))
        ensures Told(u, t) == if o.token == t then s.viewport else Told(s, t)
      {
        EnqueuedGeometry(s, u, o, t);
      }
    }
  }

  lemma EnqueuePointerKeepsGeometry(s: State, a: Action)
    requires TokenInv(s) && GeometryInv(s) && NextMain(s, a).Some? && a.EnqueuePointer?
    ensures GeometryInv(NextMain(s, a).value)
  {
    hide Stamped, LastGeometry, PointersAgree;
    var u := NextMain(s, a).value;
    if |s.queue| < OUTBOUND_QUEUE_CAPACITY {
      var o := Outbound(s.main.token, PointerPayload(s.main.pointer), s.viewport, s.main.token in s.stale);
      forall t: nat | Installed(u, t)
        ensures PointersAgree(u.streams[t].hello.value, Stamped(u.log, t))
        ensures Told(u, t) == Told(s, t)
      {
        EnqueuedGeometry(s, u, o, t);
      }
    }
  }

  lemma WriterKeepsGeometry(s: State, a: Action)
    requires GeometryInv(s) && NextWriter(s, a).Some?
    ensures GeometryInv(NextWriter(s, a).value)
  {
    WriterLinksStep(s, a);
    WriterKeepsStreams(s, a);
    hide NextWriter, Stamped, LastGeometry, PointersAgree;
  }

  lemma InstallKeepsGeometry(s: State, a: Action)
    requires QueueInv(s) && TokenInv(s) && GeometryInv(s) && NextReconnector(s, a).Some?
    requires a.Install? && !s.stopping
    ensures GeometryInv(NextReconnector(s, a).value)
  {
    var c := s.reconnector.stream;
    NothingStamped(s, c);
    ReconnectorLinksStep(s, a);
    ReconnectorStreamsStep(s, a);
    hide NextReconnector, Stamped, PointersAgree;
  }

  lemma OpeningKeepsGeometry(s: State, a: Action)
    requires SlotInv(s) && CandidateInv(s) && GeometryInv(s) && NextReconnector(s, a).Some?
    requires !(a.Install? && !s.stopping)
    ensures GeometryInv(NextReconnector(s, a).value)
  {
    ReconnectorLinksStep(s, a);
    ReconnectorStreamsStep(s, a);
    hide NextReconnector, Stamped, LastGeometry, PointersAgree;
    var u := NextReconnector(s, a).value;
    assert forall t: nat :: Installed(u, t) ==> Installed(s, t) && u.streams[t] == s.streams[t];
  }

  // ---------- Runs without a racing viewport change ----------

  lemma MainKeepsClean(s: State, a: Action)
    requires TokenInv(s) && CleanInv(s) && NextMain(s, a).Some?
    ensures CleanInv(NextMain(s, a).value)
  {
    MainHistoryStep(s, a);
    MainLinksStep(s, a);
    hide Stamped;
  }

  lemma WriterKeepsClean(s: State, a: Action)
    requires CleanInv(s) && NextWriter(s, a).Some?
    ensures CleanInv(NextWriter(s, a).value)
  {
    WriterLinksStep(s, a);
    hide NextWriter;
  }

  lemma ReconnectorKeepsClean(s: State, a: Action)
    requires CleanInv(s) && NextReconnector(s, a).Some?
    ensures CleanInv(NextReconnector(s, a).value)
  {
    ReconnectorLinksStep(s, a);
    hide NextReconnector;
  }

  // ---------- All steps ----------

  lemma NextKeepsInv(s: State, a: Action)
    requires Inv(s) && Next(s, a).Some?
    ensures Inv(Next(s, a).value)
  {
    if a.ReaderEnds? {
      ReaderKeepsInv(s);
    } else {
      assert CandidateInv(s);
      hide NextMain, NextWriter, NextReconnector, QueueInv, TokenInv, SlotInv, ShutInv, DeliveryInv, GeometryInv,
           CleanInv, CandidateInv;
      if NextMain(s, a).Some? {
        MainKeepsQueue(s, a);
        MainKeepsTokens(s, a);
        MainKeepsSlot(s, a);
        MainKeepsShut(s, a);
        MainKeepsDelivery(s, a);
        MainKeepsClean(s, a);
        if a.Promote? {
          PromoteKeepsGeometry(s, a);
        } else if a.EnqueueViewport? {
          EnqueueViewportKeepsGeometry(s, a);
        } else if a.EnqueuePointer? {
          EnqueuePointerKeepsGeometry(s, a);
        } else {
          QuietMainKeepsGeometry(s, a);
        }
      } else if NextWriter(s, a).Some? {
        WriterKeepsQueue(s, a);
        WriterKeepsTokens(s, a);
        WriterKeepsSlot(s, a);
        WriterKeepsShut(s, a);
        WriterKeepsDelivery(s, a);
        WriterKeepsGeometry(s, a);
        WriterKeepsClean(s, a);
      } else {
        ReconnectorKeepsQueue(s, a);
        ReconnectorKeepsTokens(s, a);
        ReconnectorKeepsSlot(s, a);
        ReconnectorKeepsShut(s, a);
        ReconnectorKeepsDelivery(s, a);
        ReconnectorKeepsClean(s, a);
        if a.Install? && !s.stopping {
          InstallKeepsGeometry(s, a);
        } else {
          OpeningKeepsGeometry(s, a);
        }
      }
    }
  }

  lemma ReaderKeepsInv(s: State)
    requires Inv(s) && s.reader.Some?
    ensures Inv(s.(reader := None, wakes := s.wakes + 1))
  {
    hide Stamped, LastGeometry, PointersAgree;
    var u := s.(reader := None, wakes := s.wakes + 1);
    forall t: nat | t < |u.streams|
      ensures StreamInv(u, t)
    {
      assert StreamInv(s, t);
    }
  }

  lemma {:induction false} RunKeepsInv(s: State, run: seq<Action>, t: State)
    requires Inv(s) && Reaches(s, run, t)
    ensures Inv(t)
    decreases |run|
  {
    if run != [] {
      hide Next, Inv;
      NextKeepsInv(s, run[0]);
      RunKeepsInv(Next(s, run[0]).value, run[1..], t);
    }
  }
}
