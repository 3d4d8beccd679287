/** The client's fan-out of a Flush message to its plans. */
module MultioClient {
  import opened SharedMetadata
  import opened MessageHeader

  /** Hands one header to one plan: a copy of the message that names the plan. */
  method NamePlan(msg: Header, plan: string, ghost live: set<Header>) returns (msg2: Header)
    requires Valid(live) && Current(live) && msg in live
    modifies msg.metadata.metadata
    ensures fresh(msg2) && fresh(msg2.metadata)
    ensures Valid(live + {msg2}) && Current(live + {msg2})
    ensures msg2.Metadata() == old(msg.Metadata())["clientPlanName" := plan]
    ensures forall h :: h in live ==> h.Metadata() == old(h.Metadata())
  {
    msg2 := new Header.Copy(msg, live);
    hide Valid, Current;
    ghost var all := live + {msg2};
    msg2.AcquireMetadata(all);
    msg2.Set("clientPlanName", plan, all);
  }

  function Members(hs: seq<Header>): set<Header> {
    set h | h in hs
  }

  lemma MembersSnoc(hs: seq<Header>, h: Header)
    ensures Members(hs + [h]) == Members(hs) + {h}
    ensures forall i :: 0 <= i < |hs| ==> hs[i] in Members(hs)
  {
  }

  /** The Flush branch of `dispatch`: each plan is handed a message that carries its own name and is
      otherwise the original, which stays as it was, like every other message. What one plan is
      handed is still unchanged when the last plan has been served. */
  method DispatchFlush(msg: Header, plans: seq<string>, ghost live: set<Header>) returns (handed: seq<Header>)
    requires Valid(live) && Current(live) && msg in live
    modifies msg.metadata.metadata
    ensures |handed| == |plans| && Valid(live + Members(handed)) && Current(live + Members(handed))
    ensures forall k :: 0 <= k < |plans| ==>
              fresh(handed[k]) && handed[k].Metadata() == old(msg.Metadata())["clientPlanName" := plans[k]]
    ensures forall h :: h in live ==> h.Metadata() == old(h.Metadata())
  {
    hide Valid, Current;
    handed := [];
    var k := 0;
    assert live + Members(handed) == live;
    while k < |plans|
      invariant 0 <= k <= |plans| && |handed| == k
      invariant Valid(live + Members(handed)) && Current(live + Members(handed))
      invariant forall i :: 0 <= i < k ==>
                  fresh(handed[i]) && handed[i].Metadata() == old(msg.Metadata())["clientPlanName" := plans[i]]
      invariant forall h :: h in live ==> h.Metadata() == old(h.Metadata())
    {
      var msg2 := NamePlan(msg, plans[k], live + Members(handed));
      MembersSnoc(handed, msg2);
      assert live + Members(handed + [msg2]) == live + Members(handed) + {msg2};
      handed := handed + [msg2];
      k := k + 1;
    }
  }
}
