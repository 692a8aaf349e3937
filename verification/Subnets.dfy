/** The addresses a legacy scan probes: every host of every local /24, interleaved. */
module Subnets {
  import opened Wrappers

  datatype Subnet = Subnet(a: nat, b: nat, c: nat)

  /** An IPv4 address by its /24 and its last byte. */
  datatype Addr = Addr(net: Subnet, host: nat)

  // ---------- The list on values ----------

  /** The /24s of the IPv4 addresses, each once, in the order they first occur. */
  function Networks(ips: seq<Option<Addr>>): seq<Subnet> {
    if ips == [] then []
    else
      var nets, last := Networks(ips[..|ips| - 1]), ips[|ips| - 1];
      if last.Some? && last.value.net !in nets then nets + [last.value.net] else nets
  }

  function Locals(ips: seq<Option<Addr>>): set<Addr> { set i | 0 <= i < |ips| && ips[i].Some? :: ips[i].value }

  /** One host number across the networks. */
  function Row(nets: seq<Subnet>, locals: set<Addr>, host: nat): seq<Addr> {
    if nets == [] then []
    else
      var row, last := Row(nets[..|nets| - 1], locals, host), Addr(nets[|nets| - 1], host);
      if last in locals then row else row + [last]
  }

  /** The rows of hosts 1 to `upTo - 1`. */
  function Rows(nets: seq<Subnet>, locals: set<Addr>, upTo: nat): seq<Addr> {
    if upTo <= 1 then [] else Rows(nets, locals, upTo - 1) + Row(nets, locals, upTo - 1)
  }

  // ---------- buildSubnetTargets ----------

  method BuildSubnetTargets(ips: seq<Option<Addr>>) returns (targets: seq<Addr>)
    ensures targets == Rows(Networks(ips), Locals(ips), 255)
  {
    var subnets: seq<Subnet> := [];
    var seen: set<Subnet> := {};
    var locals: set<Addr> := {};
    for i := 0 to |ips|
      invariant subnets == Networks(ips[..i]) && locals == Locals(ips[..i])
      invariant forall n :: n in seen <==> n in subnets
    {
      assert ips[..i + 1][..i] == ips[..i];
      LocalsSnoc(ips, i);
      if ips[i].None? {
        continue;
      }
      if ips[i].value.net !in seen {
        seen := seen + {ips[i].value.net};
        subnets := subnets + [ips[i].value.net];
      }
      locals := locals + {ips[i].value};
    }
    assert ips[..|ips|] == ips;
    targets := [];
    for host := 1 to 255
      invariant targets == Rows(subnets, locals, host)
    {
      ghost var before := targets;
      for k := 0 to |subnets|
        invariant targets == before + Row(subnets[..k], locals, host)
      {
        assert subnets[..k + 1][..k] == subnets[..k];
        var target := Addr(subnets[k], host);
        if target in locals {
          continue;
        }
        targets := targets + [target];
      }
      assert subnets[..|subnets|] == subnets;
    }
  }

  lemma LocalsSnoc(ips: seq<Option<Addr>>, i: nat)
    requires i < |ips|
    ensures Locals(ips[..i + 1]) == Locals(ips[..i]) + if ips[i].Some? then {ips[i].value} else {}
  {
    var before, after := Locals(ips[..i]), Locals(ips[..i + 1]);
    forall a | a in after ensures a in before + if ips[i].Some? then {ips[i].value} else {} {
      var k :| 0 <= k < i + 1 && ips[..i + 1][k] == Some(a);
      if k < i {
        assert ips[..i][k] == Some(a);
      }
    }
    forall a | a in before ensures a in after {
      var k :| 0 <= k < i && ips[..i][k] == Some(a);
      assert ips[..i + 1][k] == Some(a);
    }
    if ips[i].Some? {
      assert ips[..i + 1][i] == ips[i];
    }
  }

  // ---------- What the list is ----------

  ghost predicate Distinct<T(!new)>(s: seq<T>) { forall i, j :: 0 <= i < j < |s| ==> s[i] != s[j] }

  lemma {:induction false} NetworksExact(ips: seq<Option<Addr>>, net: Subnet)
    ensures net in Networks(ips) <==> exists i :: 0 <= i < |ips| && ips[i].Some? && ips[i].value.net == net
    ensures Distinct(Networks(ips))
  {
    if ips != [] {
      var n := |ips| - 1;
      NetworksExact(ips[..n], net);
      assert forall i :: 0 <= i < n ==> ips[..n][i] == ips[i];
    }
  }

  lemma {:induction false} RowExact(nets: seq<Subnet>, locals: set<Addr>, host: nat)
    requires Distinct(nets)
    ensures forall t :: t in Row(nets, locals, host) <==> t.host == host && t.net in nets && t !in locals
    ensures Distinct(Row(nets, locals, host))
  {
    if nets != [] {
      var n := |nets| - 1;
      RowExact(nets[..n], locals, host);
      assert nets == nets[..n] + [nets[n]];
    }
  }

  lemma {:induction false} RowsExact(nets: seq<Subnet>, locals: set<Addr>, upTo: nat)
    requires Distinct(nets)
    ensures forall t :: t in Rows(nets, locals, upTo) <==> 1 <= t.host < upTo && t.net in nets && t !in locals
    ensures Distinct(Rows(nets, locals, upTo))
    ensures forall i, j ::
              0 <= i < j < |Rows(nets, locals, upTo)| ==>
                Rows(nets, locals, upTo)[i].host <= Rows(nets, locals, upTo)[j].host
  {
    if upTo > 1 {
      RowsExact(nets, locals, upTo - 1);
      RowExact(nets, locals, upTo - 1);
      Joined(Rows(nets, locals, upTo - 1), Row(nets, locals, upTo - 1), upTo - 1);
    }
  }

  lemma Joined(before: seq<Addr>, row: seq<Addr>, host: nat)
    requires Distinct(before) && Distinct(row)
    requires (forall t :: t in before ==> t.host < host) && (forall t :: t in row ==> t.host == host)
    requires forall i, j :: 0 <= i < j < |before| ==> before[i].host <= before[j].host
    ensures Distinct(before + row)
    ensures forall i, j :: 0 <= i < j < |before + row| ==> (before + row)[i].host <= (before + row)[j].host
  {
    assert forall i :: 0 <= i < |before| ==> before[i] in before;
    assert forall i :: 0 <= i < |row| ==> row[i] in row;
  }

  /** The targets are exactly hosts 1 to 254 of every local /24 except the local addresses,
      each once. */
  lemma TargetsExact(ips: seq<Option<Addr>>, t: Addr)
    ensures var targets := Rows(Networks(ips), Locals(ips), 255);
            && Distinct(targets)
            && (t in targets <==>
                  && 1 <= t.host <= 254 && Some(t) !in ips
                  && exists i :: 0 <= i < |ips| && ips[i].Some? && ips[i].value.net == t.net)
  {
    NetworksExact(ips, t.net);
    RowsExact(Networks(ips), Locals(ips), 255);
    assert t in Locals(ips) <==> Some(t) in ips by {
      if Some(t) in ips {
        var i :| 0 <= i < |ips| && ips[i] == Some(t);
      }
    }
    hide Rows, Networks;
  }

  /** In every prefix of the list no /24 is ahead of another by more than one host: before a
      host number comes up anywhere, all smaller ones have come up everywhere. */
  lemma TargetsFair(ips: seq<Option<Addr>>, n: nat, ahead: Addr, behind: Addr)
    requires var targets := Rows(Networks(ips), Locals(ips), 255);
             n <= |targets| && ahead in targets[..n] && behind in targets && behind.host < ahead.host
    ensures behind in Rows(Networks(ips), Locals(ips), 255)[..n]
  {
    hide Rows, Networks, Distinct;
    var targets := Rows(Networks(ips), Locals(ips), 255);
    NetworksExact(ips, ahead.net);
    RowsExact(Networks(ips), Locals(ips), 255);
    var i :| 0 <= i < n && targets[..n][i] == ahead;
    var j :| 0 <= j < |targets| && targets[j] == behind;
    assert targets[i] == ahead;
    assert j < i;
    assert targets[..n][j] == behind;
  }
}
