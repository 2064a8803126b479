/**
 * MemberConverter: a member entity to its API form, with all its roles or with
 * a given list of roles, and the rows of the member query grouped into members.
 */
module MemberConverter {
  import opened Common
  import opened Entities
  import opened Domain
  import MemberRoleConverter

  /** The roles a member's link list points to, in link order. */
  function LoadRoles(ids: seq<Id>, table: map<Id, MemberRoleEntity>): (roles: seq<MemberRoleEntity>)
    requires forall i :: 0 <= i < |ids| ==> ids[i] in table
    ensures |roles| == |ids|
    ensures forall i :: 0 <= i < |ids| ==> roles[i] == table[ids[i]]
  {
    seq(|ids|, i requires 0 <= i < |ids| => table[ids[i]])
  }

  function ConvertRoles(roles: seq<MemberRoleEntity>): (r: seq<MemberRole>)
    ensures |r| == |roles|
    ensures forall i :: 0 <= i < |roles| ==> r[i] == MemberRoleConverter.ToDomain(roles[i])
  {
    seq(|roles|, i requires 0 <= i < |roles| => MemberRoleConverter.ToDomain(roles[i]))
  }

  /** toDomain(entity, roles): the roles come from the argument alone. */
  function ToDomainWithRoles(entity: MemberEntity, roles: seq<MemberRoleEntity>): (m: Member)
    ensures m.id == entity.id && m.userEmail == entity.email
    ensures |m.roles| == |roles|
    ensures forall i :: 0 <= i < |roles| ==> m.roles[i].id == Some(roles[i].id)
    ensures forall i :: 0 <= i < |roles| ==> m.roles[i] == MemberRoleConverter.ToDomain(roles[i])
  {
    Member(entity.id, entity.email, ConvertRoles(roles))
  }

  /** The entity's own role links play no part in toDomain(entity, roles). */
  lemma IgnoresEntityRoles(entity: MemberEntity, links: seq<Id>, roles: seq<MemberRoleEntity>)
    ensures ToDomainWithRoles(entity.(roles := links), roles) == ToDomainWithRoles(entity, roles)
  {
  }

  /** toDomain(entity): one API role per linked role, each carrying the linked id. */
  function ToDomain(entity: MemberEntity, table: map<Id, MemberRoleEntity>): (m: Member)
    requires forall i :: 0 <= i < |entity.roles| ==> entity.roles[i] in table
    requires forall k :: k in table ==> table[k].id == k
    ensures m.id == entity.id && m.userEmail == entity.email
    ensures |m.roles| == |entity.roles|
    ensures forall i :: 0 <= i < |entity.roles| ==> m.roles[i].id == Some(entity.roles[i])
    ensures forall i :: 0 <= i < |entity.roles| ==> m.roles[i] == MemberRoleConverter.ToDomain(table[entity.roles[i]])
  {
    ToDomainWithRoles(entity, LoadRoles(entity.roles, table))
  }

  // ---- grouping the member query rows (groupingBy on (id, email)) ----

  /** The grouping key, MemberDto. */
  datatype MemberKey = MemberKey(id: Id, email: string)

  datatype Group = Group(key: MemberKey, rows: seq<MemberWithRoleDto>)

  function KeyOf(row: MemberWithRoleDto): MemberKey {
    MemberKey(row.id, row.email)
  }

  function KeySet(rows: seq<MemberWithRoleDto>): set<MemberKey> {
    set r | r in rows :: KeyOf(r)
  }

  function Keys(groups: seq<Group>): seq<MemberKey> {
    seq(|groups|, i requires 0 <= i < |groups| => groups[i].key)
  }

  /** The rows with key `k`, in row order. */
  function Select(rows: seq<MemberWithRoleDto>, k: MemberKey): seq<MemberWithRoleDto> {
    if rows == [] then []
    else Select(rows[..|rows| - 1], k) + (if KeyOf(rows[|rows| - 1]) == k then [rows[|rows| - 1]] else [])
  }

  /** Adds one row to its group, opening a new group at the end for a new key. */
  function AddRow(groups: seq<Group>, row: MemberWithRoleDto): seq<Group> {
    if groups == [] then [Group(KeyOf(row), [row])]
    else if groups[0].key == KeyOf(row) then [groups[0].(rows := groups[0].rows + [row])] + groups[1..]
    else [groups[0]] + AddRow(groups[1..], row)
  }

  /** The groups of all rows; groups appear in order of first occurrence. */
  function GroupRows(rows: seq<MemberWithRoleDto>): seq<Group> {
    if rows == [] then [] else AddRow(GroupRows(rows[..|rows| - 1]), rows[|rows| - 1])
  }

  function TotalRows(groups: seq<Group>): nat {
    if groups == [] then 0 else |groups[0].rows| + TotalRows(groups[1..])
  }

  /** The groups match the rows: one group per distinct key, each holding exactly the rows with its key. */
  ghost predicate GroupsOf(groups: seq<Group>, rows: seq<MemberWithRoleDto>) {
    && NoDup(Keys(groups))
    && (forall k :: k in Keys(groups) <==> k in KeySet(rows))
    && (forall i :: 0 <= i < |groups| ==> groups[i].rows == Select(rows, groups[i].key))
  }

  /** Adding a row keeps the keys when its key is known and appends the key otherwise. */
  lemma {:induction false} AddRowKeys(groups: seq<Group>, row: MemberWithRoleDto)
    ensures Keys(AddRow(groups, row)) == if KeyOf(row) in Keys(groups) then Keys(groups) else Keys(groups) + [KeyOf(row)]
  {
    if groups != [] {
      var r := AddRow(groups, row);
      assert Keys(groups) == [groups[0].key] + Keys(groups[1..]);
      if groups[0].key == KeyOf(row) {
        assert Keys(r) == Keys(groups) by {
          forall i | 0 <= i < |r| ensures Keys(r)[i] == Keys(groups)[i] {
          }
        }
      } else {
        AddRowKeys(groups[1..], row);
        var rest := AddRow(groups[1..], row);
        assert Keys(r) == [groups[0].key] + Keys(rest) by {
          forall i | 0 <= i < |r| ensures Keys(r)[i] == ([groups[0].key] + Keys(rest))[i] {
            if i > 0 { assert r[i] == rest[i - 1]; }
          }
        }
      }
    }
  }

  /** Adding a row extends exactly the group with its key; a new key opens a group holding only that row. */
  lemma {:induction false} AddRowRows(groups: seq<Group>, row: MemberWithRoleDto)
    requires NoDup(Keys(groups))
    ensures |AddRow(groups, row)| >= |groups|
    ensures forall i :: 0 <= i < |groups| ==>
      AddRow(groups, row)[i].rows == groups[i].rows + (if groups[i].key == KeyOf(row) then [row] else [])
    ensures KeyOf(row) !in Keys(groups) ==> |AddRow(groups, row)| == |groups| + 1 && AddRow(groups, row)[|groups|].rows == [row]
  {
    if groups != [] {
      var r := AddRow(groups, row);
      assert Keys(groups)[0] == groups[0].key;
      if groups[0].key == KeyOf(row) {
        forall i | 1 <= i < |groups| ensures groups[i].key != KeyOf(row) {
          assert Keys(groups)[i] == groups[i].key;
        }
      } else {
        assert Keys(groups[1..]) == Keys(groups)[1..];
        AddRowRows(groups[1..], row);
        var rest := AddRow(groups[1..], row);
        assert r == [groups[0]] + rest;
        assert KeyOf(row) !in Keys(groups) ==> KeyOf(row) !in Keys(groups[1..]);
      }
    }
  }

  /** Adding a row adds one to the row count. */
  lemma {:induction false} AddRowTotal(groups: seq<Group>, row: MemberWithRoleDto)
    ensures TotalRows(AddRow(groups, row)) == TotalRows(groups) + 1
  {
    if groups != [] && groups[0].key != KeyOf(row) {
      AddRowTotal(groups[1..], row);
      assert AddRow(groups, row)[1..] == AddRow(groups[1..], row);
    } else if groups != [] {
      assert AddRow(groups, row)[1..] == groups[1..];
    }
  }

  lemma AddRowShape(groups: seq<Group>, row: MemberWithRoleDto)
    requires NoDup(Keys(groups))
    ensures |AddRow(groups, row)| == if KeyOf(row) in Keys(groups) then |groups| else |groups| + 1
    ensures Keys(AddRow(groups, row)) == if KeyOf(row) in Keys(groups) then Keys(groups) else Keys(groups) + [KeyOf(row)]
    ensures forall i :: 0 <= i < |groups| ==>
      AddRow(groups, row)[i].rows == groups[i].rows + (if groups[i].key == KeyOf(row) then [row] else [])
    ensures KeyOf(row) !in Keys(groups) ==> AddRow(groups, row)[|groups|].rows == [row]
    ensures TotalRows(AddRow(groups, row)) == TotalRows(groups) + 1
  {
    AddRowKeys(groups, row);
    AddRowRows(groups, row);
    AddRowTotal(groups, row);
    assert |Keys(AddRow(groups, row))| == |AddRow(groups, row)|;
  }

  lemma {:induction false} SelectAbsent(rows: seq<MemberWithRoleDto>, k: MemberKey)
    requires k !in KeySet(rows)
    ensures Select(rows, k) == []
  {
    if rows != [] {
      assert KeySet(rows[..|rows| - 1]) <= KeySet(rows) by {
        forall r | r in rows[..|rows| - 1] ensures KeyOf(r) in KeySet(rows) {
          assert r in rows;
        }
      }
      SelectAbsent(rows[..|rows| - 1], k);
      assert rows[|rows| - 1] in rows;
    }
  }

  /** Adding a row keeps one group per distinct key. */
  lemma GroupKeysStep(before: seq<Group>, prefix: seq<MemberWithRoleDto>, row: MemberWithRoleDto)
    requires GroupsOf(before, prefix)
    ensures NoDup(Keys(AddRow(before, row)))
    ensures forall k :: k in Keys(AddRow(before, row)) <==> k in KeySet(prefix + [row])
  {
    var rows := prefix + [row];
    var after := AddRow(before, row);
    AddRowShape(before, row);
    assert KeySet(rows) == KeySet(prefix) + {KeyOf(row)} by {
      forall r | r in rows ensures r in prefix || r == row {
      }
    }
    if KeyOf(row) !in Keys(before) {
      forall i, j | 0 <= i < j < |Keys(after)| ensures Keys(after)[i] != Keys(after)[j] {
        if j == |before| {
          assert Keys(after)[i] == Keys(before)[i];
        }
      }
    }
  }

  /** Adding a row keeps every group holding exactly the rows with its key. */
  lemma GroupRowsStep(before: seq<Group>, prefix: seq<MemberWithRoleDto>, row: MemberWithRoleDto)
    requires GroupsOf(before, prefix)
    ensures forall i :: 0 <= i < |AddRow(before, row)| ==>
      AddRow(before, row)[i].rows == Select(prefix + [row], AddRow(before, row)[i].key)
  {
    var rows := prefix + [row];
    var after := AddRow(before, row);
    AddRowShape(before, row);
    assert rows[..|rows| - 1] == prefix;
    forall i | 0 <= i < |after| ensures after[i].rows == Select(rows, after[i].key) {
      if i < |before| {
        assert Keys(after)[i] == Keys(before)[i];
      } else {
        assert KeyOf(row) !in KeySet(prefix);
        SelectAbsent(prefix, KeyOf(row));
        assert Keys(after)[i] == KeyOf(row);
      }
    }
  }

  lemma {:induction false} GroupRowsCorrect(rows: seq<MemberWithRoleDto>)
    ensures GroupsOf(GroupRows(rows), rows)
    ensures TotalRows(GroupRows(rows)) == |rows|
  {
    if rows != [] {
      var prefix, row := rows[..|rows| - 1], rows[|rows| - 1];
      assert rows == prefix + [row];
      GroupRowsCorrect(prefix);
      GroupKeysStep(GroupRows(prefix), prefix, row);
      GroupRowsStep(GroupRows(prefix), prefix, row);
      AddRowTotal(GroupRows(prefix), row);
    }
  }

  function RowsToMember(g: Group): Member {
    Member(g.key.id, g.key.email, seq(|g.rows|, i requires 0 <= i < |g.rows| => MemberRoleConverter.FromRow(g.rows[i])))
  }

  function TotalRoles(members: seq<Member>): nat {
    if members == [] then 0 else |members[0].roles| + TotalRoles(members[1..])
  }

  lemma {:induction false} TotalRolesOfGroups(groups: seq<Group>)
    ensures TotalRoles(seq(|groups|, i requires 0 <= i < |groups| => RowsToMember(groups[i]))) == TotalRows(groups)
  {
    if groups != [] {
      TotalRolesOfGroups(groups[1..]);
      var ms := seq(|groups|, i requires 0 <= i < |groups| => RowsToMember(groups[i]));
      assert ms[1..] == seq(|groups[1..]|, i requires 0 <= i < |groups[1..]| => RowsToMember(groups[1..][i]));
    }
  }

  /**
   * toDomain(List<MemberWithRoleDto>): exactly one member per distinct
   * (id, email) pair among the rows, each with one role per row of its group,
   * in row order; the role count over all members equals the row count.
   */
  function ToDomainRows(rows: seq<MemberWithRoleDto>): (ms: seq<Member>)
    ensures forall i, j :: 0 <= i < j < |ms| ==> MemberKey(ms[i].id, ms[i].userEmail) != MemberKey(ms[j].id, ms[j].userEmail)
    ensures forall r :: r in rows ==> exists i :: 0 <= i < |ms| && ms[i].id == r.id && ms[i].userEmail == r.email
    ensures forall i :: 0 <= i < |ms| ==> MemberKey(ms[i].id, ms[i].userEmail) in KeySet(rows)
    ensures forall i :: 0 <= i < |ms| ==>
      var group := Select(rows, MemberKey(ms[i].id, ms[i].userEmail));
      |ms[i].roles| == |group| && forall j :: 0 <= j < |group| ==> ms[i].roles[j] == MemberRoleConverter.FromRow(group[j])
    ensures TotalRoles(ms) == |rows|
  {
    var groups := GroupRows(rows);
    GroupRowsCorrect(rows);
    TotalRolesOfGroups(groups);
    var ms := seq(|groups|, i requires 0 <= i < |groups| => RowsToMember(groups[i]));
    assert forall i :: 0 <= i < |ms| ==> MemberKey(ms[i].id, ms[i].userEmail) == Keys(groups)[i];
    assert forall r :: r in rows ==> KeyOf(r) in Keys(groups);
    ms
  }
}
