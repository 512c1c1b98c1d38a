// Size of a zarr group (cosilico-py/src/cosilico_py/preprocessing/core/zarr.py):
// the bytes of the arrays directly inside the group, in a chosen unit.
module ZarrGroup {
  import opened Wrappers

  datatype Member = ArrayMember(name: string, nbytes: nat) | SubGroup(name: string, group: Group)

  datatype Group = Group(members: seq<Member>)

  /** Sum of `nbytes` over the direct array members, in order. */
  function DirectArrayBytes(members: seq<Member>): nat
  {
    if |members| == 0 then 0
    else (if members[0].ArrayMember? then members[0].nbytes else 0) + DirectArrayBytes(members[1..])
  }

  lemma {:induction false} DirectArrayBytesAppend(a: seq<Member>, b: seq<Member>)
    ensures DirectArrayBytes(a + b) == DirectArrayBytes(a) + DirectArrayBytes(b)
  {
    if |a| > 0 {
      assert (a + b)[0] == a[0];
      assert (a + b)[1..] == a[1..] + b;
      DirectArrayBytesAppend(a[1..], b);
    } else {
      assert a + b == b;
    }
  }

  datatype SizeError = UnknownUnit(unit: string)   // KeyError in the unit map

  /** The unit map: B, KB, MB and GB in powers of 1000. */
  function UnitFactor(unit: string): Option<real>
  {
    if unit == "B" then Some(1.0)
    else if unit == "KB" then Some(1000.0)
    else if unit == "MB" then Some(1000000.0)
    else if unit == "GB" then Some(1000000000.0)
    else None
  }

  /** get_group_size (unit "MB" by default in the source). */
  function GroupSize(g: Group, unit: string): (r: Result<real, SizeError>)
    ensures r.Err? <==> unit !in {"B", "KB", "MB", "GB"}
    ensures r.Ok? ==> r.value * UnitFactor(unit).value == DirectArrayBytes(g.members) as real
    ensures r.Ok? ==> r.value >= 0.0
  {
    match UnitFactor(unit)
    case None => Err(UnknownUnit(unit))
    case Some(f) => Ok(DirectArrayBytes(g.members) as real / f)
  }

  /** Subgroups are not traversed: adding one leaves the size unchanged,
      whatever it holds. */
  lemma SubgroupsIgnored(members: seq<Member>, name: string, sub: Group, unit: string)
    ensures GroupSize(Group(members + [SubGroup(name, sub)]), unit) == GroupSize(Group(members), unit)
  {
    DirectArrayBytesAppend(members, [SubGroup(name, sub)]);
  }

  /** A group without arrays has size 0 in every known unit. */
  lemma NoArraysNoSize(g: Group, unit: string)
    requires forall k :: 0 <= k < |g.members| ==> g.members[k].SubGroup?
    requires unit in {"B", "KB", "MB", "GB"}
    ensures GroupSize(g, unit) == Ok(0.0)
  {
    NoArraysNoBytes(g.members);
  }

  lemma {:induction false} NoArraysNoBytes(members: seq<Member>)
    requires forall k :: 0 <= k < |members| ==> members[k].SubGroup?
    ensures DirectArrayBytes(members) == 0
  {
    if |members| > 0 {
      NoArraysNoBytes(members[1..]);
    }
  }

  /** Adding an array adds its bytes. */
  lemma ArrayAddsItsBytes(members: seq<Member>, name: string, n: nat)
    ensures DirectArrayBytes(members + [ArrayMember(name, n)]) == DirectArrayBytes(members) + n
  {
    DirectArrayBytesAppend(members, [ArrayMember(name, n)]);
  }
}
