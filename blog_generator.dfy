/**
 * The generator page: a topic goes to the generation service, the reply is
 * cleaned into a post, shown, and saved in front of the stored posts; a
 * failure is shown but never saved.
 */
module Generator {
  import opened Wrappers
  import opened JsStrings
  import opened Posts
  import opened Markdown

  /** A value thrown inside the request: an `Error` carries a message. */
  datatype Thrown = ErrorValue(message: string) | OtherValue

  /**
   * What the request yields: the parsed JSON body with the string fields the
   * page reads, or a thrown value when `fetch` or `res.json()` rejected.
   */
  datatype Reply =
    | Json(error: Option<string>, title: Option<string>, blog: Option<string>, response: Option<string>, content: Option<string>)
    | Rejected(thrown: Thrown)

  /** The clock readings a new post takes: `Date.now()` as a string and an ISO 8601 time. */
  datatype Stamp = Stamp(id: string, createdAt: string)

  const ErrorTitle: string := "Error Generating Blog"
  const FailureMessage: string := "Something went wrong while generating your blog."
  const FailureContent: string := "Something went wrong while generating your blog. Please try again."

  /**
   * What the request's try block throws, if anything: the rejection itself,
   * or an `Error` carrying the body's `error` field when that is truthy.
   */
  function Raised(reply: Reply): (t: Option<Thrown>)
    ensures reply.Rejected? ==> t == Some(reply.thrown)
    ensures reply.Json? ==> (t.Some? <==> Present(reply.error))
    ensures reply.Json? && t.Some? ==> t == Some(ErrorValue(reply.error.value))
  {
    match reply
    case Rejected(thrown) => Some(thrown)
    case Json(error, _, _, _, _) => if Present(error) then Some(ErrorValue(error.value)) else None
  }

  /** The text the `error` state takes: the `Error`'s message, else a generic line. */
  function ErrorMessage(t: Thrown): (m: string)
    ensures t.ErrorValue? ==> m == t.message
    ensures t.OtherValue? ==> m == FailureMessage && m != ""
  {
    match t
    case ErrorValue(message) => message
    case OtherValue => FailureMessage
  }

  /**
   * The post shown after a failure: a fixed title, the failure text as its
   * content, the raw topic.
   */
  function ErrorPost(t: Thrown, topic: string, stamp: Stamp): (p: Post)
    ensures p.title == ErrorTitle && p.topic == topic && p.id == stamp.id && p.createdAt == stamp.createdAt
    ensures t.ErrorValue? ==> p.content == t.message
    ensures t.OtherValue? ==> p.content == FailureContent
  {
    Post(stamp.id, ErrorTitle, if t.ErrorValue? then t.message else FailureContent, topic, stamp.createdAt)
  }

  /**
   * The post built from a reply that threw nothing: the raw topic, the
   * cleaned title (the fallback only when the reply has no truthy title),
   * and the cleaned content, which holds no `*`.
   */
  function NewPost(reply: Reply, topic: string, stamp: Stamp): (p: Post)
    requires reply.Json?
    ensures p.id == stamp.id && p.createdAt == stamp.createdAt && p.topic == topic
    ensures Present(reply.title) ==> p.title == NormalizeTitle(reply.title.value)
    ensures !Present(reply.title) ==> p.title == NormalizeTitle(FallbackTitle(topic))
    ensures !Occurs(p.title, "##")
    ensures p.content == NormalizeContent(PickContent(reply.blog, reply.response, reply.content))
    ensures '*' !in p.content
  {
    Post(stamp.id, ResolveTitle(reply.title, topic),
         NormalizeContent(PickContent(reply.blog, reply.response, reply.content)),
         topic, stamp.createdAt)
  }

  class BlogGenerator {
    /** The topic input. */
    var topic: string
    /** Whether a request is in flight. */
    var isLoading: bool
    /** The post on screen, if any. */
    var blogPost: Option<Post>
    /** The failure text on screen, if any. */
    var error: Option<string>
    /** The browser storage new posts are saved to. */
    const store: SavedBlogsStore

    constructor (store: SavedBlogsStore)
      ensures this.store == store
      ensures topic == "" && !isLoading && blogPost == None && error == None
    {
      this.store := store;
      topic := "";
      isLoading := false;
      blogPost := None;
      error := None;
    }

    /** `error` is truthy: the post is styled as a failure and copy and delete are hidden. */
    predicate ErrorShown()
      reads this
    {
      error.Some? && error.value != ""
    }

    /** "Delete from Saved" is on screen: a post is shown, no request is in flight and no error is. */
    predicate CanDeleteFromSaved()
      reads this
      ensures CanDeleteFromSaved() ==> blogPost.Some? && !isLoading
      ensures CanDeleteFromSaved() <==> blogPost.Some? && !isLoading && (error.None? || error.value == "")
    {
      blogPost.Some? && !isLoading && !ErrorShown()
    }

    /** The topic input's change handler. */
    method SetTopic(value: string)
      modifies this`topic
      ensures topic == value
    {
      topic := value;
    }

    /**
     * The start of `handleGenerate`: a topic that is empty after trimming
     * does nothing; otherwise the request starts, with loading on and the
     * error cleared.
     */
    method Submit() returns (sent: bool)
      modifies this`isLoading, this`error
      ensures sent <==> Trim(topic) != ""
      ensures sent ==> isLoading && error == None
      ensures !sent ==> isLoading == old(isLoading) && error == old(error)
    {
      if Trim(topic) == "" {
        return false;
      }
      isLoading := true;
      error := None;
      sent := true;
    }

    /**
     * The rest of `handleGenerate`, once the request has an outcome. If
     * nothing was thrown, the new post is shown and saved in front of the
     * stored posts. If something was thrown, its text becomes the error and
     * an error post is shown, and storage is left alone. Either way loading
     * ends.
     */
    method Settle(reply: Reply, stamp: Stamp)
      modifies this`isLoading, this`blogPost, this`error, store
      ensures !isLoading
      ensures Raised(reply).None? ==>
        && blogPost == Some(NewPost(reply, topic, stamp))
        && error == old(error)
        && store.entry == Some([blogPost.value] + old(store.Load()))
      ensures Raised(reply).Some? ==>
        && error == Some(ErrorMessage(Raised(reply).value))
        && blogPost == Some(ErrorPost(Raised(reply).value, topic, stamp))
        && store.entry == old(store.entry)
    {
      var thrown := Raised(reply);
      if thrown.None? {
        Publish(NewPost(reply, topic, stamp));
      } else {
        error := Some(ErrorMessage(thrown.value));
        blogPost := Some(ErrorPost(thrown.value, topic, stamp));
      }
      isLoading := false;
    }

    /** The success path: the post is shown and saved in front of the stored posts. */
    method Publish(post: Post)
      modifies this`blogPost, store
      ensures blogPost == Some(post)
      ensures store.entry == Some([post] + old(store.Load()))
    {
      blogPost := Some(post);
      var saved := store.Load();
      store.Save([post] + saved);
    }

    /**
     * `handleGenerate` as a whole, given the reply the request would get.
     * A blank topic changes nothing and sends nothing. Otherwise the
     * request ends with loading off; on success the new post is shown, no
     * error is, and storage gains exactly that post in front; on failure the
     * error post is shown and storage is as it was.
     */
    method HandleGenerate(reply: Reply, stamp: Stamp) returns (sent: bool)
      modifies this`isLoading, this`blogPost, this`error, store
      ensures sent <==> Trim(topic) != ""
      ensures !sent ==> isLoading == old(isLoading) && blogPost == old(blogPost) && error == old(error) && store.entry == old(store.entry)
      ensures sent ==> !isLoading
      ensures sent && Raised(reply).None? ==>
        && blogPost == Some(NewPost(reply, topic, stamp))
        && error == None
        && store.Load() == [NewPost(reply, topic, stamp)] + old(store.Load())
      ensures sent && Raised(reply).Some? ==>
        && error == Some(ErrorMessage(Raised(reply).value))
        && blogPost == Some(ErrorPost(Raised(reply).value, topic, stamp))
        && store.entry == old(store.entry)
      ensures sent && Raised(reply).None? ==> CanDeleteFromSaved()
      ensures sent && Raised(reply).Some? ==> (CanDeleteFromSaved() <==> ErrorMessage(Raised(reply).value) == "")
    {
      sent := Submit();
      if sent {
        Settle(reply, stamp);
      }
    }

    /** "Generate Another": the topic, the shown post and the error are cleared. */
    method Clear()
      modifies this`topic, this`blogPost, this`error
      ensures topic == "" && blogPost == None && error == None
    {
      topic := "";
      blogPost := None;
      error := None;
    }

    /**
     * "Delete from Saved": storage is read again, loses every post with the
     * shown post's id, and the shown post is cleared.
     */
    method DeleteFromSaved()
      requires blogPost.Some?
      modifies this`blogPost, store
      ensures store.entry == Some(RemoveId(old(store.Load()), old(blogPost.value.id)))
      ensures blogPost == None
    {
      var saved := store.Load();
      var updated := RemoveId(saved, blogPost.value.id);
      store.Save(updated);
      blogPost := None;
    }
  }

  /**
   * Deleting a just-saved post from storage gives back the stored list from
   * before it was saved, when its id was new.
   */
  lemma SaveThenDeleteRestores(reply: Reply, topic: string, stamp: Stamp, stored: seq<Post>)
    requires reply.Json? && forall q :: q in stored ==> q.id != stamp.id
    ensures RemoveId([NewPost(reply, topic, stamp)] + stored, NewPost(reply, topic, stamp).id) == stored
  {
    RemoveIdUndoesPrepend(NewPost(reply, topic, stamp), stored);
  }
}
