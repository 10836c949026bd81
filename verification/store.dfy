/** The database as the handlers see it: the account and post collections.
    Identifiers and timestamps are supplied by the caller; timestamps are
    milliseconds since the epoch. */
module Store {
  import opened Wrappers
  import Auth

  /** A stored account. `password` holds the hash, never the plaintext. */
  datatype Account = Account(
    id: string,
    name: string,
    email: string,
    password: string,
    role: string,
    createdAt: int,
    updatedAt: int)

  /** An account as the API returns it: every field but the password. */
  datatype PublicAccount = PublicAccount(
    id: string,
    name: string,
    email: string,
    role: string,
    createdAt: int,
    updatedAt: int)

  /** A stored post; `author` is the id of the owning account. */
  datatype Post = Post(
    id: string,
    title: string,
    content: string,
    author: string,
    createdAt: int,
    updatedAt: int)

  /** Both collections, each in insertion order. */
  datatype Db = Db(accounts: seq<Account>, posts: seq<Post>)

  /** Mongoose's cast of a string to an ObjectId, as it must make before a
      query filters an ObjectId field by it: the id the string denotes, in
      the spelling stored ids have, or `None` when it does not cast. Which
      spellings denote one id (the hex digits are read without regard to
      case) belongs to the driver, so the cast is a parameter. */
  type IdCast = string -> Option<string>

  /** A handler's reply together with the database it leaves behind. */
  datatype Handled<+T> = Handled(response: Auth.Response<T>, db: Db)

  /** `select('-password')`. */
  function Public(a: Account): (p: PublicAccount)
    ensures p.id == a.id && p.name == a.name && p.email == a.email && p.role == a.role
    ensures p.createdAt == a.createdAt && p.updatedAt == a.updatedAt
  {
    PublicAccount(a.id, a.name, a.email, a.role, a.createdAt, a.updatedAt)
  }

  function PostCreatedAt(p: Post): int { p.createdAt }
  function AccountCreatedAt(a: Account): int { a.createdAt }

  /** `findById(id)`: the first account with that id. */
  function FindById(accounts: seq<Account>, id: string): (r: Option<Account>)
    ensures r.Some? ==> r.value in accounts && r.value.id == id
    ensures r.None? ==> forall a :: a in accounts ==> a.id != id
  {
    if accounts == [] then None
    else if accounts[0].id == id then Some(accounts[0])
    else FindById(accounts[1..], id)
  }

  /** `findOne({ email })` finds something. */
  predicate EmailTaken(accounts: seq<Account>, email: string) {
    exists k :: 0 <= k < |accounts| && accounts[k].email == email
  }

  /** `find({ author })`: the posts of one author, in store order. */
  function PostsBy(posts: seq<Post>, author: string): (r: seq<Post>)
    ensures forall p :: p in r <==> p in posts && p.author == author
    ensures |r| <= |posts|
  {
    if posts == [] then []
    else if posts[0].author == author then [posts[0]] + PostsBy(posts[1..], author)
    else PostsBy(posts[1..], author)
  }

  /** `PostsBy` keeps every matching post as often as it is stored and
      drops every other one. */
  lemma {:induction false} PostsByMultiset(posts: seq<Post>, author: string, p: Post)
    ensures multiset(PostsBy(posts, author))[p] == if p.author == author then multiset(posts)[p] else 0
  {
    if posts != [] {
      PostsByMultiset(posts[1..], author, p);
      assert posts == [posts[0]] + posts[1..];
    }
  }

  /** `user.save()` on a loaded account: the stored account with the same id
      is overwritten, every other account is kept. */
  function SaveAccount(accounts: seq<Account>, a: Account): (r: seq<Account>)
    ensures |r| == |accounts|
    ensures forall k :: 0 <= k < |r| ==> r[k] == if accounts[k].id == a.id then a else accounts[k]
  {
    seq(|accounts|, k requires 0 <= k < |accounts| => if accounts[k].id == a.id then a else accounts[k])
  }

  /** Saving an account with unchanged fields leaves the collection as it was,
      provided the account's id is unique. */
  lemma SaveUnchanged(accounts: seq<Account>, k: nat)
    requires k < |accounts|
    requires forall j :: 0 <= j < |accounts| && accounts[j].id == accounts[k].id ==> j == k
    ensures SaveAccount(accounts, accounts[k]) == accounts
  {
  }

  /** After saving a loaded account, looking its id up finds the saved
      version: the first account with that id is the one overwritten. */
  lemma {:induction false} FindAfterSave(accounts: seq<Account>, a: Account)
    requires FindById(accounts, a.id).Some?
    ensures FindById(SaveAccount(accounts, a), a.id) == Some(a)
  {
    var r := SaveAccount(accounts, a);
    if accounts[0].id != a.id {
      assert r[1..] == SaveAccount(accounts[1..], a);
      FindAfterSave(accounts[1..], a);
    }
  }
}
