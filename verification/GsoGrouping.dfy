/** Segmented messages as a partition of the packet stream: consecutive packets of
    one path and one size share a message. */
module GsoGrouping {

  datatype Addr = Addr(ip: int, port: int)

  datatype Packet = Packet(payload: seq<bv8>, from: Addr, to: Addr)

  predicate SamePath(p: Packet, q: Packet) {
    p.from == q.from && p.to == q.to
  }

  /** Packets that may share a segmented message. */
  predicate Alike(p: Packet, q: Packet) {
    SamePath(p, q) && |p.payload| == |q.payload|
  }

  /** Finished groups, and the one that may still grow. */
  datatype Groups = Groups(done: seq<seq<Packet>>, last: seq<Packet>)
  {
    function All(): seq<seq<Packet>> {
      if last == [] then done else done + [last]
    }

    /** Adds a packet to the last group if it is like it, and otherwise opens a group. */
    function Join(p: Packet): Groups {
      if last == [] then Groups(done, [p])
      else if Alike(last[0], p) then Groups(done, last + [p])
      else Groups(done + [last], [p])
    }
  }

  function Group(packets: seq<Packet>): Groups {
    if packets == [] then Groups([], [])
    else Group(packets[..|packets| - 1]).Join(packets[|packets| - 1])
  }

  function Concat(groups: seq<seq<Packet>>): seq<Packet> {
    if groups == [] then [] else Concat(groups[..|groups| - 1]) + groups[|groups| - 1]
  }

  ghost predicate Uniform(group: seq<Packet>) {
    group != [] && forall k :: 0 <= k < |group| ==> Alike(group[0], group[k])
  }

  ghost predicate Differ(a: seq<Packet>, b: seq<Packet>) {
    a != [] && b != [] && !Alike(a[0], b[0])
  }

  /** Every group is non-empty and of one path and size, and adjacent groups differ. */
  ghost predicate Segmented(groups: seq<seq<Packet>>) {
    && (forall i :: 0 <= i < |groups| ==> Uniform(groups[i]))
    && (forall i, j :: 0 <= i && j == i + 1 < |groups| ==> Differ(groups[i], groups[j]))
  }

  /** Grouping neither loses, repeats nor reorders a packet, and merges as much as
      segmentation allows. */
  lemma GroupPartitions(packets: seq<Packet>)
    ensures Concat(Group(packets).All()) == packets
    ensures Segmented(Group(packets).All())
  {
    GroupKeeps(packets);
    GroupSegments(packets);
    if packets != [] {
      ConcatStep(Group(packets).done, Group(packets).last);
    }
  }

  lemma {:induction false} GroupKeeps(packets: seq<Packet>)
    ensures Concat(Group(packets).done) + Group(packets).last == packets
  {
    if packets != [] {
      var n := |packets| - 1;
      GroupKeeps(packets[..n]);
      JoinConcat(Group(packets[..n]), packets[n], packets[..n]);
    }
  }

  lemma {:induction false} GroupSegments(packets: seq<Packet>)
    ensures Segmented(Group(packets).All())
  {
    if packets != [] {
      var n := |packets| - 1;
      GroupSegments(packets[..n]);
      LastGrows(packets[..n]);
      JoinSegmented(Group(packets[..n]), packets[n]);
    }
  }

  lemma LastGrows(packets: seq<Packet>)
    ensures Group(packets).last == [] <==> packets == []
    ensures Group(packets).last == [] ==> Group(packets).done == []
  {
  }

  lemma ConcatStep(done: seq<seq<Packet>>, last: seq<Packet>)
    ensures Concat(done + [last]) == Concat(done) + last
  {
    assert (done + [last])[..|done|] == done;
  }

  lemma JoinConcat(g: Groups, p: Packet, packets: seq<Packet>)
    requires Concat(g.done) + g.last == packets
    ensures var r := g.Join(p); Concat(r.done) + r.last == packets + [p]
  {
    if g.last != [] && !Alike(g.last[0], p) {
      ConcatStep(g.done, g.last);
    }
  }

  lemma SegmentedPush(done: seq<seq<Packet>>, last: seq<Packet>)
    ensures Segmented(done + [last])
       <==> Segmented(done) && Uniform(last) && (done != [] ==> Differ(done[|done| - 1], last))
  {
    var all := done + [last];
    assert all[|done|] == last;
    assert forall i :: 0 <= i < |done| ==> all[i] == done[i];
    if Segmented(all) {
      assert done != [] ==> Differ(all[|done| - 1], all[|done|]);
    }
  }

  lemma UniformPush(last: seq<Packet>, p: Packet)
    requires Uniform(last) && Alike(last[0], p)
    ensures Uniform(last + [p])
  {
  }

  lemma JoinSegmented(g: Groups, p: Packet)
    requires Segmented(g.All()) && (g.last == [] ==> g.done == [])
    ensures Segmented(g.Join(p).All())
  {
    SegmentedPush(g.done, g.last);
    if g.last == [] {
      SegmentedPush([], [p]);
    } else if Alike(g.last[0], p) {
      UniformPush(g.last, p);
      SegmentedPush(g.done, g.last + [p]);
    } else {
      SegmentedPush(g.done + [g.last], [p]);
    }
  }

  /** The bytes of a group, end to end. */
  function Payload(group: seq<Packet>): seq<bv8> {
    if group == [] then [] else Payload(group[..|group| - 1]) + group[|group| - 1].payload
  }

  /** Cut into equal segments, the bytes of a group of one size are its packets:
      the receiver of a segmented message sees exactly the packets sent. */
  lemma {:induction false} SegmentsArePackets(group: seq<Packet>, size: nat, k: nat)
    requires k < |group| && forall i :: 0 <= i < |group| ==> |group[i].payload| == size
    ensures |Payload(group)| == |group| * size
    ensures 0 <= k * size <= k * size + size <= |group| * size
    ensures Payload(group)[k * size..k * size + size] == group[k].payload
  {
    var n := |group| - 1;
    var front := group[..n];
    assert |group| * size == n * size + size;
    if n == 0 {
      assert Payload(front) == [];
    } else {
      SegmentsArePackets(front, size, if k < n then k else 0);
    }
  }

  lemma {:induction false} PayloadSum(a: seq<Packet>, b: seq<Packet>)
    ensures Payload(a + b) == Payload(a) + Payload(b)
  {
    if b == [] {
      assert a + b == a;
    } else {
      var front, p := b[..|b| - 1], b[|b| - 1];
      PayloadSum(a, front);
      assert (a + b)[..|a + b| - 1] == a + front && (a + b)[|a + b| - 1] == p;
      assert Payload(a + b) == Payload(a + front) + p.payload;
    }
  }

  lemma PayloadOne(p: Packet)
    ensures Payload([p]) == p.payload
  {
    assert Payload([p]) == Payload([]) + p.payload;
  }

  /** The last group is of one path and size, those of the latest packet. */
  lemma {:induction false} LastAlike(packets: seq<Packet>)
    requires packets != []
    ensures var last := Group(packets).last;
            last != [] && forall i :: 0 <= i < |last| ==> Alike(packets[|packets| - 1], last[i])
  {
    var n := |packets| - 1;
    if n > 0 {
      LastAlike(packets[..n]);
    }
  }
}
