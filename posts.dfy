/**
 * Saved blog posts and the browser storage entry `savedBlogs` that holds
 * them, newest first.
 */
module Posts {
  import opened Wrappers

  /** One generated blog post as it is shown and stored. */
  datatype Post = Post(id: string, title: string, content: string, topic: string, createdAt: string)

  /** How many saved posts the landing page shows. */
  const PreviewSize: nat := 6

  /** `posts.filter(b => b.id !== id)`: every post whose id differs, in the same order. */
  function RemoveId(posts: seq<Post>, id: string): (r: seq<Post>)
    ensures |r| <= |posts|
    ensures forall i :: 0 <= i < |r| ==> r[i].id != id
  {
    if posts == [] then []
    else if posts[0].id != id then [posts[0]] + RemoveId(posts[1..], id)
    else RemoveId(posts[1..], id)
  }

  /** The posts kept are exactly the stored posts whose id differs. */
  lemma {:induction false} RemoveIdMembers(posts: seq<Post>, id: string)
    ensures forall p :: p in RemoveId(posts, id) <==> p in posts && p.id != id
    decreases |posts|
  {
    if posts != [] {
      RemoveIdMembers(posts[1..], id);
      assert posts == [posts[0]] + posts[1..];
    }
  }

  /** Filtering a concatenation filters each part and keeps them in order. */
  lemma {:induction false} RemoveIdConcat(a: seq<Post>, b: seq<Post>, id: string)
    ensures RemoveId(a + b, id) == RemoveId(a, id) + RemoveId(b, id)
    decreases |a|
  {
    if a == [] {
      assert a + b == b;
    } else {
      var ab := a + b;
      assert ab[0] == a[0] && ab[1..] == a[1..] + b;
      RemoveIdConcat(a[1..], b, id);
      var rest := RemoveId(a[1..], id) + RemoveId(b, id);
      if a[0].id != id {
        assert RemoveId(ab, id) == [a[0]] + rest;
        assert RemoveId(a, id) == [a[0]] + RemoveId(a[1..], id);
        assert [a[0]] + rest == ([a[0]] + RemoveId(a[1..], id)) + RemoveId(b, id);
      } else {
        assert RemoveId(ab, id) == rest;
        assert RemoveId(a, id) == RemoveId(a[1..], id);
      }
    }
  }

  /** Removing an id that no post carries changes nothing. */
  lemma {:induction false} RemoveIdAbsent(posts: seq<Post>, id: string)
    requires forall p :: p in posts ==> p.id != id
    ensures RemoveId(posts, id) == posts
    decreases |posts|
  {
    if posts != [] {
      RemoveIdAbsent(posts[1..], id);
      assert posts == [posts[0]] + posts[1..];
    }
  }

  /** Removing the id of a post just put in front undoes the insertion, when the id was new. */
  lemma RemoveIdUndoesPrepend(p: Post, posts: seq<Post>)
    requires forall q :: q in posts ==> q.id != p.id
    ensures RemoveId([p] + posts, p.id) == posts
  {
    assert ([p] + posts)[1..] == posts;
    RemoveIdAbsent(posts, p.id);
  }

  /** `posts.slice(0, 6)`: the newest posts, in stored order. */
  function Preview(posts: seq<Post>): (r: seq<Post>)
    ensures r <= posts
    ensures |r| == if |posts| < PreviewSize then |posts| else PreviewSize
  {
    if |posts| <= PreviewSize then posts else posts[..PreviewSize]
  }

  /**
   * The browser's local storage as far as the `savedBlogs` key goes: the
   * entry is either absent or holds a list of posts.
   */
  class SavedBlogsStore {
    var entry: Option<seq<Post>>

    constructor (entry: Option<seq<Post>>)
      ensures this.entry == entry
    {
      this.entry := entry;
    }

    /**
     * `JSON.parse(localStorage.getItem('savedBlogs') || '[]')`: the stored
     * list, or no posts when the key is absent.
     */
    function Load(): (posts: seq<Post>)
      reads this
      ensures entry.None? ==> posts == []
      ensures entry.Some? ==> posts == entry.value
    {
      entry.GetOr([])
    }

    /** `localStorage.setItem('savedBlogs', JSON.stringify(posts))`. */
    method Save(posts: seq<Post>)
      modifies this
      ensures entry == Some(posts) && Load() == posts
    {
      entry := Some(posts);
    }

    /** `localStorage.removeItem('savedBlogs')`. */
    method Remove()
      modifies this
      ensures entry == None && Load() == []
    {
      entry := None;
    }
  }
}
