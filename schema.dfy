/** The database of the blog: the user, post, like, category and password-reset-token tables,
    their unique columns, and the lookups the server code performs on them. */
module Schema {
  import opened Wrappers
  import opened Lists

  /** The three values the `published` column of a post takes. */
  datatype Status = UnderReview | Published | Rejected

  /** The string stored for a status: "false" while under review, "true" once published,
      "reject" once rejected. */
  function StatusText(s: Status): string {
    match s
    case UnderReview => "false"
    case Published => "true"
    case Rejected => "reject"
  }

  /** The two roles of the `role` column. */
  datatype Role = UserRole | AdminRole

  function RoleText(r: Role): string {
    match r
    case UserRole => "user"
    case AdminRole => "admin"
  }

  /** `z.enum(["user", "admin"])`: reads a role from its text. */
  function ParseRole(t: string): (r: Option<Role>)
    ensures r.Some? <==> t == "user" || t == "admin"
    ensures r.Some? ==> RoleText(r.value) == t
  {
    if t == "user" then Some(UserRole)
    else if t == "admin" then Some(AdminRole)
    else None
  }

  /** Reading the text of a role gives the role back. */
  lemma ParseRoleText(r: Role)
    ensures ParseRole(RoleText(r)) == Some(r)
  {
  }

  /** A row of the user table; `password` holds a bcrypt hash. */
  datatype User = User(id: string, name: string, email: string, password: Option<string>, role: Role,
                       image: Option<string>, designation: Option<string>, bio: Option<string>,
                       employeeId: Option<string>)

  /** A user row without its password column, as the server sends it to a client. */
  datatype PublicUser = PublicUser(id: string, name: string, email: string, role: Role,
                                   image: Option<string>, designation: Option<string>,
                                   bio: Option<string>, employeeId: Option<string>)

  /** `const { password, ...rest } = user`. */
  function Public(u: User): PublicUser {
    PublicUser(u.id, u.name, u.email, u.role, u.image, u.designation, u.bio, u.employeeId)
  }

  /** A row of the post table; `categories` is the `Category` column, a list of names. */
  datatype Post = Post(id: string, title: string, categories: seq<string>, content: string,
                       authorId: string, createdAt: int, published: Status)

  /** A row of the like table: the user `authorId` liked (or unliked) the post `postId`. */
  datatype Like = Like(id: string, postId: string, authorId: string, liked: bool)

  /** A row of the categories table. */
  datatype Category = Category(id: string, name: string)

  /** A row of the password-reset-token table; `expiresAt` is in milliseconds since the epoch. */
  datatype ResetToken = ResetToken(id: string, token: string, userId: string, expiresAt: int)

  /** How a server action ends: it returns, or it throws an error with a message. */
  datatype Outcome = Done | Thrown(message: string)

  /** The body of a JSON reply: `{ error }` or `{ message }`. */
  datatype Body = ErrorBody(error: string) | MessageBody(message: string)

  /** A JSON reply of a route handler: its HTTP status and its body. */
  datatype Reply = Reply(status: int, body: Body)

  /** The message of the error Prisma throws when the row an `update` targets does not exist. */
  const UpdateNotFound := "Record to update not found."

  /** The message of the error Prisma throws when the row a `delete` targets does not exist. */
  const DeleteNotFound := "Record to delete does not exist."

  function UserById(users: seq<User>, id: string): Option<User> {
    Find(users, (u: User) => u.id == id)
  }

  function UserByName(users: seq<User>, name: string): Option<User> {
    Find(users, (u: User) => u.name == name)
  }

  function UserByEmail(users: seq<User>, email: string): Option<User> {
    Find(users, (u: User) => u.email == email)
  }

  function UserByEmployeeId(users: seq<User>, employeeId: string): Option<User> {
    Find(users, (u: User) => u.employeeId == Some(employeeId))
  }

  function PostById(posts: seq<Post>, id: string): Option<Post> {
    Find(posts, (p: Post) => p.id == id)
  }

  function CategoryByName(categories: seq<Category>, name: string): Option<Category> {
    Find(categories, (c: Category) => c.name == name)
  }

  function TokenByValue(tokens: seq<ResetToken>, token: string): Option<ResetToken> {
    Find(tokens, (t: ResetToken) => t.token == token)
  }

  // The columns the unique constraints are on.
  function UserId(u: User): string { u.id }
  function UserEmail(u: User): string { u.email }
  function UserName(u: User): string { u.name }
  function PostId(p: Post): string { p.id }
  function LikeId(l: Like): string { l.id }
  function CategoryId(c: Category): string { c.id }
  function CategoryName(c: Category): string { c.name }
  function TokenId(t: ResetToken): string { t.id }
  function TokenValue(t: ResetToken): string { t.token }
  function TokenOwner(t: ResetToken): string { t.userId }

  /** Ids, emails, names and employee ids of users are unique columns. */
  predicate UsersValid(users: seq<User>) {
    && UniqueBy(users, UserId)
    && UniqueBy(users, UserEmail)
    && UniqueBy(users, UserName)
    && forall i, j :: 0 <= i < j < |users| && users[i].employeeId.Some? ==>
         users[i].employeeId != users[j].employeeId
  }

  /** Token ids and token strings are unique, every token belongs to an existing user, and no user
      holds two tokens (every token is issued by replacing the user's previous ones). */
  predicate TokensValid(tokens: seq<ResetToken>, users: seq<User>) {
    && UniqueBy(tokens, TokenId)
    && UniqueBy(tokens, TokenValue)
    && UniqueBy(tokens, TokenOwner)
    && forall t :: t in tokens ==> UserById(users, t.userId).Some?
  }

  /** The database, one sequence of rows per table, in storage order. */
  class Database {
    var users: seq<User>
    var posts: seq<Post>
    var likes: seq<Like>
    var categories: seq<Category>
    var resetTokens: seq<ResetToken>

    /** The unique columns of every table and the owner reference of the reset tokens. */
    ghost predicate Valid()
      reads this
    {
      && UsersValid(users)
      && UniqueBy(posts, PostId)
      && UniqueBy(likes, LikeId)
      && UniqueBy(categories, CategoryId)
      && UniqueBy(categories, CategoryName)
      && TokensValid(resetTokens, users)
    }

    constructor ()
      ensures Valid()
      ensures users == [] && posts == [] && likes == [] && categories == [] && resetTokens == []
    {
      users := [];
      posts := [];
      likes := [];
      categories := [];
      resetTokens := [];
    }
  }
}
