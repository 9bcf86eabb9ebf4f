/** The post store behind `/posts`: a JSON list in `posts.json`, read in
    full by `load_posts`, with new posts put at the front by
    `save_post_data`. The file is the store's state; its encoding is not
    modelled. */
module Posts {
  import opened Wrappers

  /** A post: the request's JSON object, restricted to its string-valued keys. */
  type Post = map<string, string>

  /** What `posts.json` holds when it is read: no file, text that is not
      valid JSON, or a list of posts. */
  datatype StoreFile = Absent | Undecodable | Stored(posts: seq<Post>)

  /** `{"error": "名前と内容は必須です"}` with status 400. */
  datatype Error = MissingField

  const MISSING_FIELD_STATUS: nat := 400

  /** `load_posts()`: no file and a file that is not valid JSON both read as
      the empty list. */
  function Load(file: StoreFile): seq<Post>
  {
    match file
    case Stored(posts) => posts
    case _ => []
  }

  /** `data.get(key)` is truthy: present and, being a string, non-empty. */
  predicate Given(data: Post, key: string)
  {
    key in data && data[key] != ""
  }

  /** `add_post` goes ahead only when both `name` and `content` are given. */
  predicate Accepted(data: Post)
  {
    Given(data, "name") && Given(data, "content")
  }

  /** `data['date'] = ...`: the post gains (or has overwritten) its `date`
      and keeps every other field. */
  function Stamped(data: Post, date: string): (post: Post)
    ensures post.Keys == data.Keys + {"date"}
    ensures post["date"] == date
    ensures forall k :: k in data && k != "date" ==> post[k] == data[k]
  {
    data["date" := date]
  }

  class PostStore {
    var file: StoreFile

    constructor (file: StoreFile)
      ensures this.file == file
    {
      this.file := file;
    }

    /** The list `GET /posts` returns. */
    function Contents(): seq<Post>
      reads this
    {
      Load(file)
    }

    /** `save_post_data`: the post goes first, the posts read from the file
        follow in their order, and the file is rewritten. What a
        file that is not valid JSON held is lost. */
    method SavePostData(post: Post)
      modifies this
      ensures file == Stored([post] + Load(old(file)))
      ensures Contents()[0] == post && Contents()[1..] == old(Contents())
      ensures |Contents()| == |old(Contents())| + 1
    {
      var posts := Load(file);
      posts := [post] + posts;
      file := Stored(posts);
    }

    /** `add_post(data)` with the clock reading `now` already formatted as
        `%Y/%m/%d %H:%M`. A post without `name` or `content` is refused and
        the file is not touched; otherwise the stamped post becomes the first
        one and is echoed back. */
    method AddPost(data: Post, now: string) returns (response: Result<Post, Error>)
      modifies this
      ensures !Accepted(data) ==> response == Failure(MissingField) && file == old(file)
      ensures Accepted(data) ==> response == Success(Stamped(data, now))
      ensures Accepted(data) ==> file == Stored([Stamped(data, now)] + Load(old(file)))
      ensures Accepted(data) ==> Contents() == [Stamped(data, now)] + old(Contents())
    {
      if !Given(data, "name") || !Given(data, "content") {
        return Failure(MissingField);
      }
      var post := data["date" := now];
      SavePostData(post);
      response := Success(post);
    }
  }
}
