/** Invariants of the claim list and of the way to ownership, over block_claim. */
module ClaimProofs {
  import opened Types
  import opened BlockSpec
  import RefreshProofs

  // ---------------------------------------------------------------- history

  predicate Inquires(e: Event, b: nat) {
    e.Sent? && e.ok && e.packet.command.Inquire? && Lists(e.packet, b)
  }

  /** Successful inquiries that listed b since b was last selected, if it ever was. */
  function InquiriesSince(trace: seq<Event>, b: nat): Option<nat> {
    if trace == [] then None
    else
      var e := trace[|trace| - 1];
      if e == Selected(b) then Some(0)
      else
        var before := InquiriesSince(trace[..|trace| - 1], b);
        if before.Some? && Inquires(e, b) then Some(before.value + 1) else before
  }

  ghost predicate ThreeInquiries(trace: seq<Event>, b: nat) {
    InquiriesSince(trace, b) == Some(3)
  }

  /** Whenever a block was taken into ownership, exactly three successful inquiries had
      listed it since it was last selected from the FREE blocks. */
  ghost predicate OwnedAfterThree(trace: seq<Event>) {
    trace == [] ||
    (var last := |trace| - 1;
     OwnedAfterThree(trace[..last]) && (trace[last].Owned? ==> ThreeInquiries(trace[..last], trace[last].block)))
  }

  lemma {:induction false} EachOwnedAfterThree(trace: seq<Event>, p: nat)
    requires OwnedAfterThree(trace) && p < |trace| && trace[p].Owned?
    ensures ThreeInquiries(trace[..p], trace[p].block)
  {
    var last := |trace| - 1;
    if p < last {
      EachOwnedAfterThree(trace[..last], p);
      assert trace[..last][..p] == trace[..p];
    }
  }

  /** The counter of a listed block is its number of inquiries since selection. */
  ghost predicate CountsInquiries(n: Node, b: nat) {
    b < |n.blocks| && InquiriesSince(n.trace, b) == Some(n.blocks[b].claimingCounts)
  }

  ghost predicate HistoryInv(n: Node) {
    OwnedAfterThree(n.trace) && forall b :: b in n.claiming ==> CountsInquiries(n, b)
  }

  ghost predicate NodeInv(cfg: Config, n: Node) {
    TableInv(cfg, n) && ClaimInv(n) && HistoryInv(n)
  }

  lemma SnocInquiries(trace: seq<Event>, e: Event, b: nat)
    ensures InquiriesSince(trace + [e], b) ==
            if e == Selected(b) then Some(0)
            else if InquiriesSince(trace, b).Some? && Inquires(e, b) then Some(InquiriesSince(trace, b).value + 1)
            else InquiriesSince(trace, b)
  {
    assert (trace + [e])[..|trace|] == trace;
  }

  lemma SnocOwned(trace: seq<Event>, e: Event)
    requires OwnedAfterThree(trace)
    requires e.Owned? ==> ThreeInquiries(trace, e.block)
    ensures OwnedAfterThree(trace + [e])
  {
    assert (trace + [e])[..|trace|] == trace;
  }

  predicate QuietEvent(e: Event) {
    e.Sent? && e.packet.command.UpdateClaim?
  }

  /** Events that are only sent claims leave the whole history as it was. */
  lemma {:induction false} ClaimsKeepHistory(t: seq<Event>, u: seq<Event>)
    requires OwnedAfterThree(t) && t <= u
    requires forall k :: |t| <= k < |u| ==> QuietEvent(u[k])
    ensures OwnedAfterThree(u)
    ensures forall b :: InquiriesSince(u, b) == InquiriesSince(t, b)
    decreases |u|
  {
    if |u| == |t| {
      assert u == t;
    } else {
      var v := u[..|u| - 1];
      assert u == v + [u[|u| - 1]];
      ClaimsKeepHistory(t, v);
      SnocOwned(v, u[|u| - 1]);
    }
  }

  // ---------------------------------------------------------------- refresh

  lemma RefreshKeepsInv(cfg: Config, link: Link, n: Node, now: int)
    requires NodeInv(cfg, n)
    ensures NodeInv(cfg, Refresh(cfg, link, n, now))
  {
    var r := Refresh(cfg, link, n, now);
    RefreshProofs.RefreshSteps(cfg, link, n, now);
    RefreshStepKeepsInv(cfg, link, n, r, now);
  }

  lemma RefreshStepKeepsInv(cfg: Config, link: Link, n: Node, r: Node, now: int)
    requires NodeInv(cfg, n) && RefreshProofs.RefreshStep(cfg, link, n, r, now)
    ensures NodeInv(cfg, r)
  {
    forall k | |n.trace| <= k < |r.trace| ensures QuietEvent(r.trace[k]) {
      assert RefreshProofs.OwnClaim(cfg, n.blocks, r.trace[k]);
    }
    ClaimsKeepHistory(n.trace, r.trace);
    assert TableInv(cfg, r) by {
      forall i | 0 <= i < |r.blocks| ensures Placed(cfg, i, r.blocks[i]) && TableFits(cfg, r.blocks[i], r.tables[i]) {
        assert Placed(cfg, i, n.blocks[i]) && TableFits(cfg, n.blocks[i], n.tables[i]);
      }
    }
    forall b | b in r.claiming ensures Listable(r, b) && CountsInquiries(r, b) {
      assert Listable(n, b) && CountsInquiries(n, b);
    }
  }

  // ---------------------------------------------------------------- settling

  ghost predicate AllKept(blocks: seq<Block>, list: seq<nat>) {
    forall b {:trigger b in list} :: b in list ==> b < |blocks| && Judge(blocks[b]) == Keep
  }

  lemma {:induction false} Unlist(pre: seq<nat>, b: nat, post: seq<nat>)
    requires Distinct(pre + [b] + post)
    ensures Distinct(pre + post) && b !in pre + post
  {
    var s := pre + [b] + post;
    if pre == [] {
      assert s[1..] == post && pre + post == post;
    } else {
      assert s[1..] == pre[1..] + [b] + post;
      assert (pre + post)[1..] == pre[1..] + post;
      Unlist(pre[1..], b, post);
      assert b in s[1..];
      assert forall x :: x in pre[1..] + post ==> x in s[1..];
    }
  }

  lemma {:induction false} ListLast(s: seq<nat>, b: nat)
    requires Distinct(s) && b !in s
    ensures Distinct(s + [b])
  {
    if s != [] {
      ListLast(s[1..], b);
      assert (s + [b])[1..] == s[1..] + [b];
    }
  }

  lemma DropKeepsInv(cfg: Config, n: Node, pre: seq<nat>, b: nat, post: seq<nat>)
    requires NodeInv(cfg, Listing(n, pre + [b] + post)) && AllKept(n.blocks, pre)
    requires b < |n.blocks| && !n.blocks[b].state.Claiming?
    ensures var r := n.(amount := (n.amount - 1) % 0x100);
      NodeInv(cfg, Listing(r, pre + post)) && AllKept(r.blocks, pre)
  {
    var m := Listing(n, pre + [b] + post);
    var r := Listing(n.(amount := (n.amount - 1) % 0x100), pre + post);
    Unlist(pre, b, post);
    assert forall c :: c in r.claiming ==> c in m.claiming;
    assert forall c :: c in m.claiming && c != b ==> c in r.claiming;
    assert |m.claiming| == |r.claiming| + 1 == m.amount;
    forall c | c in r.claiming ensures Listable(r, c) && CountsInquiries(r, c) {
      assert Listable(m, c) && CountsInquiries(m, c);
    }
    assert TableInv(cfg, r) by { assert r.blocks == m.blocks && r.tables == m.tables; }
  }

  lemma OwnKeepsTables(cfg: Config, n: Node, b: nat, now: int)
    requires TableInv(cfg, n) && b < |n.blocks|
    ensures TableInv(cfg, OwnBlock(cfg, n, b, now))
  {
    var r := OwnBlock(cfg, n, b, now);
    forall i | 0 <= i < |r.blocks| ensures Placed(cfg, i, r.blocks[i]) && TableFits(cfg, r.blocks[i], r.tables[i]) {
      assert Placed(cfg, i, n.blocks[i]) && TableFits(cfg, n.blocks[i], n.tables[i]);
    }
  }

  lemma OwnKeepsHistory(cfg: Config, n: Node, b: nat, now: int)
    requires HistoryInv(n) && CountsInquiries(n, b) && b !in n.claiming && b < |n.tables|
    requires n.blocks[b].claimingCounts == CLAIMS_BEFORE_OWNING
    ensures HistoryInv(OwnBlock(cfg, n, b, now))
  {
    var r := OwnBlock(cfg, n, b, now);
    SnocOwned(n.trace, Owned(b));
    forall c | c in r.claiming ensures CountsInquiries(r, c) {
      assert CountsInquiries(n, c);
      SnocInquiries(n.trace, Owned(b), c);
    }
  }

  lemma TakeKeepsList(cfg: Config, n: Node, pre: seq<nat>, b: nat, post: seq<nat>, now: int)
    requires ClaimInv(Listing(n, pre + [b] + post)) && b < |n.blocks| && b < |n.tables|
    ensures ClaimInv(OwnBlock(cfg, Listing(n.(amount := (n.amount - 1) % 0x100), pre + post), b, now))
  {
    var m := Listing(n, pre + [b] + post);
    var r := OwnBlock(cfg, Listing(n.(amount := (n.amount - 1) % 0x100), pre + post), b, now);
    Unlist(pre, b, post);
    assert |m.claiming| == |r.claiming| + 1 == m.amount;
    forall c | c in r.claiming ensures Listable(r, c) {
      assert c in m.claiming && c != b;
      assert Listable(m, c);
    }
    forall c: nat | c < |r.blocks| && r.blocks[c].state.Claiming? ensures c in r.claiming {
      assert c != b && c in m.claiming;
    }
  }

  lemma TakeKeepsInv(cfg: Config, n: Node, pre: seq<nat>, b: nat, post: seq<nat>, now: int)
    requires NodeInv(cfg, Listing(n, pre + [b] + post)) && AllKept(n.blocks, pre)
    requires b < |n.blocks| && n.blocks[b].claimingCounts == CLAIMS_BEFORE_OWNING
    ensures var r := OwnBlock(cfg, n.(amount := (n.amount - 1) % 0x100), b, now);
      NodeInv(cfg, Listing(r, pre + post)) && AllKept(r.blocks, pre)
  {
    var m := Listing(n, pre + [b] + post);
    var less := Listing(n.(amount := (n.amount - 1) % 0x100), pre + post);
    assert m.claiming[|pre|] == b;
    assert CountsInquiries(m, b);
    Unlist(pre, b, post);
    assert HistoryInv(less) by {
      forall c | c in less.claiming ensures CountsInquiries(less, c) {
        assert c in m.claiming;
        assert CountsInquiries(m, c);
      }
    }
    OwnKeepsTables(cfg, less, b, now);
    OwnKeepsHistory(cfg, less, b, now);
    TakeKeepsList(cfg, n, pre, b, post, now);
    assert OwnBlock(cfg, less, b, now) == Listing(OwnBlock(cfg, n.(amount := (n.amount - 1) % 0x100), b, now), pre + post);
    assert b !in pre;
  }

  lemma KeepKeepsInv(cfg: Config, n: Node, pre: seq<nat>, b: nat, post: seq<nat>)
    requires NodeInv(cfg, Listing(n, pre + [b] + post)) && AllKept(n.blocks, pre)
    requires b < |n.blocks| && Judge(n.blocks[b]) == Keep
    ensures AllKept(n.blocks, pre + [b])
  {
  }

  /** The state between the passes of block_claim: only CLAIMING blocks are listed. */
  ghost predicate Ready(cfg: Config, n: Node) {
    NodeInv(cfg, n) && AllKept(n.blocks, n.claiming)
  }

  ghost predicate SettleInv(cfg: Config, n: Node, list: seq<nat>, pre: seq<nat>) {
    NodeInv(cfg, Listing(n, list)) && AllKept(n.blocks, pre)
  }

  /** What Settle does with the first entry, as a step of its state and kept prefix. */
  lemma SettleFirst(cfg: Config, n: Node, pre: seq<nat>, todo: seq<nat>, now: int) returns (m: Node, kept: seq<nat>)
    requires SettleInv(cfg, n, pre + todo, pre) && todo != []
    ensures SettleInv(cfg, m, pre + kept + todo[1..], pre + kept)
    ensures var (s, t) := (Settle(cfg, n, todo, now), Settle(cfg, m, todo[1..], now));
      s.node == t.node && s.kept == kept + t.kept
  {
    var b, post := todo[0], todo[1..];
    assert pre + todo == pre + [b] + post;
    assert (pre + todo)[|pre|] == b;
    assert Listable(Listing(n, pre + todo), b);
    var less := n.(amount := (n.amount - 1) % 0x100);
    kept := [];
    assert pre + kept == pre;
    match Judge(n.blocks[b])
    case Take =>
      TakeKeepsInv(cfg, n, pre, b, post, now);
      m := OwnBlock(cfg, less, b, now);
    case Drop =>
      DropKeepsInv(cfg, n, pre, b, post);
      m := less;
    case Keep =>
      KeepKeepsInv(cfg, n, pre, b, post);
      m, kept := n, [b];
  }

  lemma {:induction false} SettleKeepsInv(cfg: Config, n: Node, pre: seq<nat>, todo: seq<nat>, now: int)
    requires SettleInv(cfg, n, pre + todo, pre)
    ensures var s := Settle(cfg, n, todo, now); SettleInv(cfg, s.node, pre + s.kept, pre + s.kept)
    decreases |todo|
  {
    if todo == [] {
      assert pre + [] == pre;
    } else {
      var m, kept := SettleFirst(cfg, n, pre, todo, now);
      var t := Settle(cfg, m, todo[1..], now);
      assert pre + (kept + t.kept) == pre + kept + t.kept;
      SettleKeepsInv(cfg, m, pre + kept, todo[1..], now);
    }
  }

  // ---------------------------------------------------------------- selecting

  lemma SelectKeepsInv(cfg: Config, n: Node, b: nat, now: int)
    requires Ready(cfg, n) && n.amount < 0xff
    requires b < |n.blocks| && n.blocks[b].state.Free?
    ensures var r := Select(cfg, n, b, now);
      Ready(cfg, r) && r.amount == n.amount + 1
  {
    var r := Select(cfg, n, b, now);
    assert b !in n.claiming;
    ListLast(n.claiming, b);
    SnocOwned(n.trace, Selected(b));
    forall c | c in r.claiming ensures Listable(r, c) && CountsInquiries(r, c) && Judge(r.blocks[c]) == Keep {
      SnocInquiries(n.trace, Selected(b), c);
      if c != b {
        assert Listable(n, c) && CountsInquiries(n, c);
      }
    }
    forall c: nat | c < |r.blocks| && r.blocks[c].state.Claiming? ensures c in r.claiming {
      if c == b { assert r.claiming[|n.claiming|] == b; } else { assert c in n.claiming; }
    }
    assert TableInv(cfg, r) by {
      forall i | 0 <= i < |r.blocks| ensures Placed(cfg, i, r.blocks[i]) && TableFits(cfg, r.blocks[i], r.tables[i]) {
        assert Placed(cfg, i, n.blocks[i]) && TableFits(cfg, n.blocks[i], n.tables[i]);
      }
    }
  }

  lemma {:induction false} SelectManyKeepsInv(cfg: Config, n: Node, draws: nat, rnd: nat -> nat, now: int)
    requires Ready(cfg, n) && n.amount + draws <= 0xff
    ensures var r := SelectMany(cfg, n, draws, rnd, now);
      Ready(cfg, r) && r.amount <= n.amount + draws
  {
    if draws > 0 {
      SelectManyKeepsInv(cfg, n, draws - 1, rnd, now);
      var m := SelectMany(cfg, n, draws - 1, rnd, now);
      match FindFree(m.blocks, rnd(draws - 1))
      case Some(b) => SelectKeepsInv(cfg, m, b, now);
      case None =>
    }
  }

  // ---------------------------------------------------------------- inquiring

  lemma InquirePacketLists(cfg: Config, claiming: seq<nat>, b: nat)
    ensures Lists(InquirePacket(cfg, claiming), b) <==> b in claiming
  {
    var p := InquirePacket(cfg, claiming);
    if b in claiming {
      var k :| 0 <= k < |claiming| && claiming[k] == b;
      assert p.payload[k].blockIndex == b;
    }
  }

  lemma InquiryBlock(cfg: Config, link: Link, n: Node, c: nat)
    requires c < |n.blocks| && (c in n.claiming ==> n.blocks[c].claimingCounts < CLAIMS_BEFORE_OWNING)
    ensures var r := SendInquiry(cfg, link, n);
      && |r.blocks| == |n.blocks| && r.blocks[c].state == n.blocks[c].state
      && r.blocks[c].claimingCounts == n.blocks[c].claimingCounts
           + if n.amount >= 1 && link(|n.trace|) && c in n.claiming then 1 else 0
  {
    if n.amount >= 1 && link(|n.trace|) {
      assert SendInquiry(cfg, link, n).blocks == CountInquiry(n.blocks, n.claiming);
    }
  }

  lemma InquiryCounts(cfg: Config, link: Link, n: Node, c: nat)
    requires n.amount >= 1 && c in n.claiming && CountsInquiries(n, c)
    requires n.blocks[c].claimingCounts < CLAIMS_BEFORE_OWNING
    ensures CountsInquiries(SendInquiry(cfg, link, n), c)
  {
    var e := Sent(InquirePacket(cfg, n.claiming), link(|n.trace|));
    InquirePacketLists(cfg, n.claiming, c);
    SnocInquiries(n.trace, e, c);
    InquiryBlock(cfg, link, n, c);
    assert SendInquiry(cfg, link, n).trace == n.trace + [e];
  }

  lemma InquiryKeepsHistory(cfg: Config, link: Link, n: Node)
    requires HistoryInv(n) && ClaimInv(n) && AllKept(n.blocks, n.claiming)
    ensures HistoryInv(SendInquiry(cfg, link, n))
  {
    var r := SendInquiry(cfg, link, n);
    if n.amount >= 1 {
      SnocOwned(n.trace, r.trace[|n.trace|]);
      forall c | c in r.claiming ensures CountsInquiries(r, c) {
        assert Listable(n, c) && CountsInquiries(n, c);
        InquiryCounts(cfg, link, n, c);
      }
    }
  }

  lemma InquiryKeepsTables(cfg: Config, link: Link, n: Node)
    requires TableInv(cfg, n)
    ensures TableInv(cfg, SendInquiry(cfg, link, n))
  {
    var r := SendInquiry(cfg, link, n);
    forall i | 0 <= i < |r.blocks| ensures Placed(cfg, i, r.blocks[i]) && TableFits(cfg, r.blocks[i], r.tables[i]) {
      assert Placed(cfg, i, n.blocks[i]) && TableFits(cfg, n.blocks[i], n.tables[i]);
    }
  }

  lemma InquiryKeepsList(cfg: Config, link: Link, n: Node)
    requires ClaimInv(n) && AllKept(n.blocks, n.claiming)
    ensures ClaimInv(SendInquiry(cfg, link, n))
  {
    var r := SendInquiry(cfg, link, n);
    forall c | c in n.claiming ensures Listable(r, c) {
      assert Listable(n, c);
      InquiryBlock(cfg, link, n, c);
    }
    forall c: nat | c < |r.blocks| && r.blocks[c].state.Claiming? ensures c in r.claiming {
      if c !in n.claiming { InquiryBlock(cfg, link, n, c); }
    }
  }

  lemma SendInquiryKeepsInv(cfg: Config, link: Link, n: Node)
    requires Ready(cfg, n)
    ensures NodeInv(cfg, SendInquiry(cfg, link, n))
  {
    InquiryKeepsTables(cfg, link, n);
    InquiryKeepsHistory(cfg, link, n);
    InquiryKeepsList(cfg, link, n);
  }

  lemma SettleAll(cfg: Config, n: Node, now: int)
    requires NodeInv(cfg, n)
    ensures var s := Settle(cfg, n, n.claiming, now); Ready(cfg, Listing(s.node, s.kept))
  {
    var s := Settle(cfg, n, n.claiming, now);
    assert [] + n.claiming == n.claiming && [] + s.kept == s.kept;
    assert Listing(n, n.claiming) == n;
    SettleKeepsInv(cfg, n, [], n.claiming, now);
  }

  lemma PickedKeepsInv(cfg: Config, s: Settled, num: int, rnd: nat -> nat, now: int)
    requires Ready(cfg, Listing(s.node, s.kept)) && num <= 0xff
    ensures Ready(cfg, Picked(cfg, s, num, rnd, now))
  {
    var m := Listing(s.node, s.kept);
    var needed := num - s.taken;
    if needed > m.amount {
      SelectManyKeepsInv(cfg, m, needed - m.amount, rnd, now);
    }
  }

  /** block_claim keeps the tables, the claim list and the three-inquiries history; the
      8-bit amount does not wrap as long as no more than 255 blocks are requested. */
  lemma BlockClaimKeepsInv(cfg: Config, link: Link, n: Node, num: int, now: int, rnd: nat -> nat)
    requires NodeInv(cfg, n) && num <= 0xff
    ensures NodeInv(cfg, BlockClaim(cfg, link, n, num, now, rnd))
  {
    SettleAll(cfg, n, now);
    var s := Settle(cfg, n, n.claiming, now);
    PickedKeepsInv(cfg, s, num, rnd, now);
    SendInquiryKeepsInv(cfg, link, Picked(cfg, s, num, rnd, now));
  }
}
