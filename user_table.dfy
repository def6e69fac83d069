/** The User collection, in insertion order. Its schema (not part of this
    model) is taken to carry a unique index on `email`. */
module UserTable {
  import opened Types
  import opened Seqs

  /** `User.findById(id)`: the first user with that id. */
  function FindById(rows: seq<User>, id: UserId): (r: Option<User>)
    ensures r.Some? ==> r.value in rows && r.value.id == id
    ensures r.None? <==> forall u :: u in rows ==> u.id != id
    ensures r.Some? ==> exists i :: 0 <= i < |rows| && rows[i] == r.value
                                    && forall j :: 0 <= j < i ==> rows[j].id != id
  {
    if rows == [] then None
    else if rows[0].id == id then Some(rows[0])
    else
      var found := FindById(rows[1..], id);
      assert forall k :: 0 <= k < |rows| - 1 ==> rows[1..][k] == rows[k + 1];
      found
  }

  /** `User.findOne({email})`: the first user with that email. */
  function FindByEmail(rows: seq<User>, email: string): (r: Option<User>)
    ensures r.Some? ==> r.value in rows && r.value.email == email
    ensures r.None? <==> forall u :: u in rows ==> u.email != email
    ensures r.Some? ==> exists i :: 0 <= i < |rows| && rows[i] == r.value
                                    && forall j :: 0 <= j < i ==> rows[j].email != email
  {
    if rows == [] then None
    else if rows[0].email == email then Some(rows[0])
    else
      var found := FindByEmail(rows[1..], email);
      assert forall k :: 0 <= k < |rows| - 1 ==> rows[1..][k] == rows[k + 1];
      found
  }

  /** A user appended under an email nobody had is the one `findOne` returns. */
  lemma {:induction false} FindByEmailAppend(rows: seq<User>, u: User)
    requires forall v :: v in rows ==> v.email != u.email
    ensures FindByEmail(rows + [u], u.email) == Some(u)
  {
    if rows == [] {
    } else {
      assert (rows + [u])[1..] == rows[1..] + [u];
      FindByEmailAppend(rows[1..], u);
    }
  }

  /** `User.exists({email})`. */
  predicate EmailTaken(rows: seq<User>, email: string) {
    exists u :: u in rows && u.email == email
  }

  /** `User.findById(id).select("role")` as the blog readers use it: the
      role, or none for an absent user (`user?.role`). */
  function RoleOf(rows: seq<User>, id: UserId): (r: Option<Role>)
    ensures r.Some? <==> FindById(rows, id).Some?
    ensures r.Some? ==> r.value == FindById(rows, id).value.role
  {
    match FindById(rows, id)
    case Some(u) => Some(u.role)
    case None => None
  }

  /** Every row with `u.id` replaced by `u`. */
  function ReplaceById(rows: seq<User>, u: User): (r: seq<User>)
    ensures |r| == |rows|
    ensures forall i :: 0 <= i < |rows| ==> r[i] == if rows[i].id == u.id then u else rows[i]
  {
    seq(|rows|, i requires 0 <= i < |rows| => if rows[i].id == u.id then u else rows[i])
  }

  /** After `u` is saved over a present user, looking its id up finds `u`. */
  lemma FindByIdReplace(rows: seq<User>, u: User)
    requires exists v :: v in rows && v.id == u.id
    ensures FindById(ReplaceById(rows, u), u.id) == Some(u)
  {
  }

  /** Saving `u` leaves what every other id looks up to as it was. */
  lemma FindByIdReplaceOther(rows: seq<User>, u: User, id: UserId)
    requires id != u.id
    ensures FindById(ReplaceById(rows, u), id) == FindById(rows, id)
  {
  }

  /** The rows a delete by id keeps. */
  function OtherId(id: UserId): User -> bool {
    (u: User) => u.id != id
  }

  /** `User.deleteOne({_id: id})`, ids being unique: the other users, in
      their order. */
  function RemoveById(rows: seq<User>, id: UserId): (r: seq<User>)
    ensures r == Filter(rows, OtherId(id))
    ensures forall u :: u in r <==> u in rows && u.id != id
  {
    if rows == [] then []
    else if rows[0].id == id then RemoveById(rows[1..], id)
    else [rows[0]] + RemoveById(rows[1..], id)
  }

  class Users {
    var rows: seq<User>

    constructor (rows: seq<User>)
      ensures this.rows == rows
    {
      this.rows := rows;
    }

    /** `User.create(u)`: refused with a duplicate-key error when the email is taken. */
    method Create(u: User) returns (err: Option<Failure>)
      modifies this
      ensures EmailTaken(old(rows), u.email) ==> err == Some(DuplicateKey) && rows == old(rows)
      ensures !EmailTaken(old(rows), u.email) ==> err == None && rows == old(rows) + [u]
    {
      if FindByEmail(rows, u.email).Some? {
        err := Some(DuplicateKey);
      } else {
        err := None;
        rows := rows + [u];
      }
    }

    /** `user.save()` on a loaded user: refused with a duplicate-key error when
        another user already has the email. */
    method Save(u: User) returns (err: Option<Failure>)
      modifies this
      ensures (exists v :: v in old(rows) && v.email == u.email && v.id != u.id) ==>
                err == Some(DuplicateKey) && rows == old(rows)
      ensures (forall v :: v in old(rows) && v.email == u.email ==> v.id == u.id) ==>
                err == None && rows == ReplaceById(old(rows), u)
    {
      var clash := exists v :: v in rows && v.email == u.email && v.id != u.id;
      if clash {
        err := Some(DuplicateKey);
      } else {
        err := None;
        rows := ReplaceById(rows, u);
      }
    }

    /** `User.deleteOne({_id: id})`. */
    method DeleteOne(id: UserId)
      modifies this
      ensures rows == RemoveById(old(rows), id)
    {
      rows := RemoveById(rows, id);
    }
  }
}
