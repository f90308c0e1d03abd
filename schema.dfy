/** The identifiers shared by the client pages and the server records */
module Schema {
  /** A user id, as stored in `group_members.userId` and `expenses.paidBy` */
  type UserId = string
}
