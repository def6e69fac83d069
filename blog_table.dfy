/** The Blog collection, in creation order. */
module BlogTable {
  import opened Types
  import opened Seqs

  /** `Blog.findById(id)`. */
  function FindById(rows: seq<Blog>, id: BlogId): (r: Option<Blog>)
    ensures r.Some? ==> r.value in rows && r.value.id == id
    ensures r.None? <==> forall b :: b in rows ==> b.id != id
    ensures r.Some? ==> exists i :: 0 <= i < |rows| && rows[i] == r.value
                                    && forall j :: 0 <= j < i ==> rows[j].id != id
  {
    if rows == [] then None
    else if rows[0].id == id then Some(rows[0])
    else
      var found := FindById(rows[1..], id);
      assert forall k :: 0 <= k < |rows| - 1 ==> rows[1..][k] == rows[k + 1];
      found
  }

  /** `Blog.findOne({slug})`. */
  function FindBySlug(rows: seq<Blog>, slug: string): (r: Option<Blog>)
    ensures r.Some? ==> r.value in rows && r.value.slug == slug
    ensures r.None? <==> forall b :: b in rows ==> b.slug != slug
    ensures r.Some? ==> exists i :: 0 <= i < |rows| && rows[i] == r.value
                                    && forall j :: 0 <= j < i ==> rows[j].slug != slug
  {
    if rows == [] then None
    else if rows[0].slug == slug then Some(rows[0])
    else
      var found := FindBySlug(rows[1..], slug);
      assert forall k :: 0 <= k < |rows| - 1 ==> rows[1..][k] == rows[k + 1];
      found
  }

  /** Every row with `b.id` replaced by `b` (`blog.save()`). */
  function ReplaceById(rows: seq<Blog>, b: Blog): (r: seq<Blog>)
    ensures |r| == |rows|
    ensures forall i :: 0 <= i < |rows| ==> r[i] == if rows[i].id == b.id then b else rows[i]
  {
    seq(|rows|, i requires 0 <= i < |rows| => if rows[i].id == b.id then b else rows[i])
  }

  /** After `b` is saved over a present blog, looking its id up finds `b`. */
  lemma FindByIdReplace(rows: seq<Blog>, b: Blog)
    requires exists v :: v in rows && v.id == b.id
    ensures FindById(ReplaceById(rows, b), b.id) == Some(b)
  {
  }

  /** Saving `b` leaves what every other id looks up to as it was. */
  lemma FindByIdReplaceOther(rows: seq<Blog>, b: Blog, id: BlogId)
    requires id != b.id
    ensures FindById(ReplaceById(rows, b), id) == FindById(rows, id)
  {
  }

  /** The rows a delete by id keeps. */
  function OtherId(id: BlogId): Blog -> bool {
    (b: Blog) => b.id != id
  }

  /** The rows a delete by author keeps. */
  function OtherAuthor(author: UserId): Blog -> bool {
    (b: Blog) => b.author != author
  }

  /** `Blog.deleteOne({_id: id})`, ids being unique: the other rows, in
      their order. */
  function RemoveById(rows: seq<Blog>, id: BlogId): (r: seq<Blog>)
    ensures r == Filter(rows, OtherId(id))
    ensures forall b :: b in r <==> b in rows && b.id != id
    ensures (forall b :: b in rows ==> b.id != id) ==> r == rows
  {
    if rows == [] then []
    else if rows[0].id == id then RemoveById(rows[1..], id)
    else [rows[0]] + RemoveById(rows[1..], id)
  }

  /** `Blog.deleteMany({author})`: the other authors' rows, in their order. */
  function RemoveByAuthor(rows: seq<Blog>, author: UserId): (r: seq<Blog>)
    ensures r == Filter(rows, OtherAuthor(author))
    ensures forall b :: b in r <==> b in rows && b.author != author
  {
    if rows == [] then []
    else if rows[0].author == author then RemoveByAuthor(rows[1..], author)
    else [rows[0]] + RemoveByAuthor(rows[1..], author)
  }

  class Blogs {
    var rows: seq<Blog>

    constructor (rows: seq<Blog>)
      ensures this.rows == rows
    {
      this.rows := rows;
    }

    /** `Blog.create(b)`. */
    method Create(b: Blog)
      modifies this
      ensures rows == old(rows) + [b]
    {
      rows := rows + [b];
    }

    /** `blog.save()` on a loaded blog. */
    method Save(b: Blog)
      modifies this
      ensures rows == ReplaceById(old(rows), b)
    {
      rows := ReplaceById(rows, b);
    }

    method DeleteOne(id: BlogId)
      modifies this
      ensures rows == RemoveById(old(rows), id)
    {
      rows := RemoveById(rows, id);
    }

    method DeleteMany(author: UserId)
      modifies this
      ensures rows == RemoveByAuthor(old(rows), author)
    {
      rows := RemoveByAuthor(rows, author);
    }
  }
}
