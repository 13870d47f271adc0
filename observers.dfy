/**
 * The model observers that keep the link tables in step with roles and
 * affiliates: a new role gets a blank grant row for every permission, a
 * new affiliate a link to every email template, and deleting either drops
 * its rows.
 *
 * A table is the sequence of its rows in insertion order; `Permission::all()`
 * and `EmailTemplate::all()` are given as the sequence of their ids.
 * Auto-increment row ids are not modelled.
 */
module Observers {
  import opened Common

  // ---------------------------------------------------------------------------
  // Roles

  datatype PermissionRole = PermissionRole(permissionId: int, roleId: int, view: int, edit: int, create: int,
                                           delete: int, grant: int, waterfall: int)

  /** A row granting nothing: all six flags are 0. */
  predicate IsBlank(row: PermissionRole) {
    row.view == 0 && row.edit == 0 && row.create == 0 && row.delete == 0 && row.grant == 0 && row.waterfall == 0
  }

  /** The rows `created` saves: one per permission, in order. */
  function BlankGrants(roleId: int, permissionIds: seq<int>): (rows: seq<PermissionRole>)
    ensures |rows| == |permissionIds|
    ensures forall i :: 0 <= i < |rows| ==>
      rows[i].permissionId == permissionIds[i] && rows[i].roleId == roleId && IsBlank(rows[i])
  {
    if permissionIds == [] then []
    else BlankGrants(roleId, permissionIds[..|permissionIds| - 1])
         + [PermissionRole(permissionIds[|permissionIds| - 1], roleId, 0, 0, 0, 0, 0, 0)]
  }

  function OtherRole(roleId: int): PermissionRole -> bool {
    (row: PermissionRole) => row.roleId != roleId
  }

  class PermissionRoleTable {
    var rows: seq<PermissionRole>

    constructor (initial: seq<PermissionRole>)
      ensures rows == initial
    {
      rows := initial;
    }

    /** `RoleObserver::created`: one saved row per permission. */
    method RoleCreated(roleId: int, permissionIds: seq<int>)
      modifies this
      ensures rows == old(rows) + BlankGrants(roleId, permissionIds)
    {
      for i := 0 to |permissionIds|
        invariant rows == old(rows) + BlankGrants(roleId, permissionIds[..i])
      {
        assert permissionIds[..i + 1][..i] == permissionIds[..i];
        var row := PermissionRole(permissionIds[i], roleId, 0, 0, 0, 0, 0, 0);
        rows := rows + [row];
      }
      assert permissionIds[..|permissionIds|] == permissionIds;
    }

    /** `RoleObserver::deleting`: one bulk delete by role id. */
    method RoleDeleting(roleId: int)
      modifies this
      ensures rows == Filter(old(rows), OtherRole(roleId))
    {
      rows := Filter(rows, OtherRole(roleId));
    }
  }

  /** After the delete no row of the role is left, and every row of another
    * role is still there. */
  lemma RoleDeletingMeaning(rows: seq<PermissionRole>, roleId: int)
    ensures forall row :: row in Filter(rows, OtherRole(roleId)) ==> row.roleId != roleId && row in rows
    ensures forall row :: row in rows && row.roleId != roleId ==> row in Filter(rows, OtherRole(roleId))
  {
    var r := Filter(rows, OtherRole(roleId));
    forall row | row in r ensures row.roleId != roleId && row in rows {
      var i :| 0 <= i < |r| && r[i] == row;
    }
    forall row | row in rows && row.roleId != roleId ensures row in r {
      var i :| 0 <= i < |rows| && rows[i] == row;
    }
  }

  /** Deleting a role right after creating it restores the table, provided
    * the role had no rows before. */
  lemma RoleDeletingUndoesCreated(rows: seq<PermissionRole>, roleId: int, permissionIds: seq<int>)
    requires forall row :: row in rows ==> row.roleId != roleId
    ensures Filter(rows + BlankGrants(roleId, permissionIds), OtherRole(roleId)) == rows
  {
    var added := BlankGrants(roleId, permissionIds);
    FilterAppend(rows, added, OtherRole(roleId));
    FilterAll(rows, OtherRole(roleId));
    FilterNone(added, OtherRole(roleId));
  }

  // ---------------------------------------------------------------------------
  // Affiliates

  datatype AffiliateEmailTemplate = AffiliateEmailTemplate(emailTemplateId: int, affiliateId: int)

  /** The links `created` saves: one per template, in order. */
  function TemplateLinks(affiliateId: int, templateIds: seq<int>): (rows: seq<AffiliateEmailTemplate>)
    ensures |rows| == |templateIds|
    ensures forall i :: 0 <= i < |rows| ==> rows[i] == AffiliateEmailTemplate(templateIds[i], affiliateId)
  {
    if templateIds == [] then []
    else TemplateLinks(affiliateId, templateIds[..|templateIds| - 1])
         + [AffiliateEmailTemplate(templateIds[|templateIds| - 1], affiliateId)]
  }

  function OtherAffiliate(affiliateId: int): AffiliateEmailTemplate -> bool {
    (row: AffiliateEmailTemplate) => row.affiliateId != affiliateId
  }

  class AffiliateEmailTemplateTable {
    var rows: seq<AffiliateEmailTemplate>

    constructor (initial: seq<AffiliateEmailTemplate>)
      ensures rows == initial
    {
      rows := initial;
    }

    /** `AffiliateObserver::created`: one saved link per email template. */
    method AffiliateCreated(affiliateId: int, templateIds: seq<int>)
      modifies this
      ensures rows == old(rows) + TemplateLinks(affiliateId, templateIds)
    {
      for i := 0 to |templateIds|
        invariant rows == old(rows) + TemplateLinks(affiliateId, templateIds[..i])
      {
        assert templateIds[..i + 1][..i] == templateIds[..i];
        var link := AffiliateEmailTemplate(templateIds[i], affiliateId);
        rows := rows + [link];
      }
      assert templateIds[..|templateIds|] == templateIds;
    }

    /** `AffiliateObserver::deleting`: one bulk delete by affiliate id. */
    method AffiliateDeleting(affiliateId: int)
      modifies this
      ensures rows == Filter(old(rows), OtherAffiliate(affiliateId))
    {
      rows := Filter(rows, OtherAffiliate(affiliateId));
    }
  }

  /** After the delete no link of the affiliate is left, and every link of
    * another affiliate is still there. */
  lemma AffiliateDeletingMeaning(rows: seq<AffiliateEmailTemplate>, affiliateId: int)
    ensures forall row :: row in Filter(rows, OtherAffiliate(affiliateId)) ==> row.affiliateId != affiliateId && row in rows
    ensures forall row :: row in rows && row.affiliateId != affiliateId ==> row in Filter(rows, OtherAffiliate(affiliateId))
  {
    var r := Filter(rows, OtherAffiliate(affiliateId));
    forall row | row in r ensures row.affiliateId != affiliateId && row in rows {
      var i :| 0 <= i < |r| && r[i] == row;
    }
    forall row | row in rows && row.affiliateId != affiliateId ensures row in r {
      var i :| 0 <= i < |rows| && rows[i] == row;
    }
  }

  /** Deleting an affiliate right after creating it restores the link
    * table, provided the affiliate had no links before. */
  lemma AffiliateDeletingUndoesCreated(rows: seq<AffiliateEmailTemplate>, affiliateId: int, templateIds: seq<int>)
    requires forall row :: row in rows ==> row.affiliateId != affiliateId
    ensures Filter(rows + TemplateLinks(affiliateId, templateIds), OtherAffiliate(affiliateId)) == rows
  {
    var added := TemplateLinks(affiliateId, templateIds);
    FilterAppend(rows, added, OtherAffiliate(affiliateId));
    FilterAll(rows, OtherAffiliate(affiliateId));
    FilterNone(added, OtherAffiliate(affiliateId));
  }
}
