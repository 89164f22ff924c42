/**
  The vocabulary of permissions, and the two maps of `src/common/authorization/subject-key.ts`
  that say which column ties a row to its owning user or its owning workspace.
 */
module SubjectKeys {
  import opened Prelude

  datatype Action =
    | Manage | Create | Read | Update | Delete | ResetPassword | AssignRole | Suspend | TransferOwnership
    | Retry | Cancel | ReadPayload | RevokeSession | ResendVerification

  datatype Subject =
    | All | User | Workspace | WorkspaceMembership | WorkspaceInvitation | Role | Permission
    | AppVersion | DeviceToken | AuditLog | QueueJob

  datatype Column = IdColumn | UserIdColumn | WorkspaceIdColumn

  function OwnerKey(subject: Subject): Option<Column> {
    if subject.User? then Some(IdColumn)
    else if subject.DeviceToken? || subject.WorkspaceMembership? then Some(UserIdColumn)
    else None
  }

  function TenantKey(subject: Subject): Option<Column> {
    if subject.Workspace? then Some(IdColumn)
    else if subject.WorkspaceMembership? || subject.WorkspaceInvitation? then Some(WorkspaceIdColumn)
    else None
  }
}
