/**
 * The landing page's list of recent posts: it shows the newest saved posts,
 * and lets the user delete one of them or all of them.
 */
module HomePage {
  import opened Wrappers
  import opened Posts

  class Home {
    /** The `savedBlogs` state: the posts the page shows. */
    var savedBlogs: seq<Post>
    /** The browser storage the page reads and writes. */
    const store: SavedBlogsStore

    /** The page before its mount effect has run: an empty list. */
    constructor (store: SavedBlogsStore)
      ensures this.store == store && savedBlogs == []
    {
      this.store := store;
      savedBlogs := [];
    }

    /**
     * The mount effect: the first six stored posts, in stored order. Storage
     * is only read.
     */
    method LoadSaved()
      modifies this`savedBlogs
      ensures savedBlogs == Preview(store.Load())
      ensures |savedBlogs| <= PreviewSize
    {
      savedBlogs := Preview(store.Load());
    }

    /**
     * "Delete All Blogs": once confirmed, the storage entry is removed and the
     * list emptied; declined, nothing changes.
     */
    method DeleteAll(confirmed: bool)
      modifies this`savedBlogs, store
      ensures confirmed ==> store.entry == None && store.Load() == [] && savedBlogs == []
      ensures !confirmed ==> savedBlogs == old(savedBlogs) && store.entry == old(store.entry)
    {
      if confirmed {
        store.Remove();
        savedBlogs := [];
      }
    }

    /**
     * A card's "Delete", as written: once confirmed, the shown list loses
     * every post with that id, and that shortened list is what is stored;
     * declined, nothing changes. Storage is not read again, so stored posts
     * beyond the shown ones are lost (see `DeleteFromPreviewDropsOlderPosts`).
     */
    method DeleteOne(id: string, confirmed: bool)
      modifies this`savedBlogs, store
      ensures confirmed ==> savedBlogs == RemoveId(old(savedBlogs), id) && store.entry == Some(savedBlogs)
      ensures !confirmed ==> savedBlogs == old(savedBlogs) && store.entry == old(store.entry)
    {
      if confirmed {
        var updated := RemoveId(savedBlogs, id);
        savedBlogs := updated;
        store.Save(updated);
      }
    }

    /**
     * A card's "Delete" as a read-modify-write of storage: once confirmed,
     * storage loses exactly the posts with that id and the page shows the
     * newest six of what is left; declined, nothing changes.
     */
    method DeleteOneSynced(id: string, confirmed: bool)
      modifies this`savedBlogs, store
      ensures confirmed ==> store.entry == Some(RemoveId(old(store.Load()), id)) && savedBlogs == Preview(store.Load())
      ensures !confirmed ==> savedBlogs == old(savedBlogs) && store.entry == old(store.entry)
    {
      if confirmed {
        var updated := RemoveId(store.Load(), id);
        store.Save(updated);
        savedBlogs := Preview(updated);
      }
    }
  }

  /**
   * Deleting from the six-post list and storing the result loses stored
   * posts: when a seventh post exists that is not the one deleted, the
   * stored list ends up shorter than removing that id from storage would
   * leave it.
   */
  lemma DeleteFromPreviewDropsOlderPosts(stored: seq<Post>, id: string)
    requires |stored| > PreviewSize && stored[PreviewSize].id != id
    ensures |RemoveId(Preview(stored), id)| < |RemoveId(stored, id)|
  {
    var shown := Preview(stored);
    var older := stored[PreviewSize..];
    assert stored == shown + older;
    RemoveIdConcat(shown, older, id);
    RemoveIdMembers(older, id);
    assert older[0] in RemoveId(older, id);
  }

  /** The read-modify-write delete keeps every other stored post, in order. */
  lemma SyncedDeleteKeepsOthers(stored: seq<Post>, id: string, p: Post)
    requires p in stored && p.id != id
    ensures p in RemoveId(stored, id)
  {
    RemoveIdMembers(stored, id);
  }
}
