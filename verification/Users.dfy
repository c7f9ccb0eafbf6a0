/** User roles and account states, shared by every service. */
module Users {
  datatype Role = Guest | Member | Moderator | Admin
  datatype Status = Active | Blocked | Banned
  datatype User = User(role: Role, status: Status)
}
