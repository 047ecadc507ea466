/**
 * The post document (src/models/post.js): fields, defaults, the `trim`
 * setter on `content`, the `visibility` enum and the `imageUrl` validator
 * with its regular expression `^https?:\/\/.*\.(jpg|jpeg|png|gif)$`.
 */
module PostSchema {
  import opened Common
  import opened JsString

  /** `visibility`: enum ["public", "friends", "private"], default "public". */
  datatype Visibility = Public | Friends | Private

  datatype Reply = Reply(user: Id, text: string)

  /**
   * An entry of `comments`. `replies` is where the reply handler appends; the
   * comment sub-schema as written declares no such path (see `PostRoutes`).
   */
  datatype Comment = Comment(id: Id, user: Id, text: string, replies: seq<Reply>)

  /** A stored post; `createdAt` is the `timestamps: true` creation time. */
  datatype Post = Post(
    id: Id,
    content: string,
    imageUrl: Option<string>,
    createdBy: Id,
    visibility: Visibility,
    likes: seq<Id>,
    comments: seq<Comment>,
    shares: nat,
    parentPost: Option<Id>,
    createdAt: nat)

  /** The enum check on `visibility`. */
  function ParseVisibility(s: string): Option<Visibility>
  {
    if s == "public" then Some(Public)
    else if s == "friends" then Some(Friends)
    else if s == "private" then Some(Private)
    else None
  }

  // ---- the imageUrl regular expression ----

  const HTTP: string := "http://"
  const HTTPS: string := "https://"

  /** `https?:\/\/` */
  predicate IsScheme(x: string)
  {
    x == HTTP || x == HTTPS
  }

  /** `(jpg|jpeg|png|gif)` */
  predicate IsExtension(x: string)
  {
    x == "jpg" || x == "jpeg" || x == "png" || x == "gif"
  }

  /** `.*` matches any run of characters that are not line terminators. */
  predicate NoLineTerminator(s: string)
  {
    forall i :: 0 <= i < |s| ==> !IsLineTerminator(s[i])
  }

  /**
   * The language of the expression, read off its structure: a scheme, a run
   * without line terminators, a literal ".", an extension, and nothing after
   * (`$` without the `m` flag). Matching is case-sensitive.
   */
  ghost predicate InRegexLanguage(s: string)
  {
    exists scheme, mid, ext {:trigger IsScheme(scheme), NoLineTerminator(mid), IsExtension(ext)} ::
      IsScheme(scheme) && NoLineTerminator(mid) && IsExtension(ext) && s == scheme + mid + "." + ext
  }

  /** `s` ends with "." followed by `ext`, and what precedes that has no line terminator. */
  predicate EndsWithExtension(rest: string, ext: string)
  {
    |rest| > |ext| && rest[|rest| - |ext| - 1..] == "." + ext
    && NoLineTerminator(rest[..|rest| - |ext| - 1])
  }

  /** What follows the scheme, if the string starts with one. */
  function AfterScheme(s: string): Option<string>
  {
    if |s| >= |HTTPS| && s[..|HTTPS|] == HTTPS then Some(s[|HTTPS|..])
    else if |s| >= |HTTP| && s[..|HTTP|] == HTTP then Some(s[|HTTP|..])
    else None
  }

  /** `regex.test(s)`, checked directly: a scheme prefix and an extension suffix. */
  predicate ImageUrlMatches(s: string)
  {
    var rest := AfterScheme(s);
    rest.Some? &&
    (EndsWithExtension(rest.value, "jpg") || EndsWithExtension(rest.value, "jpeg")
     || EndsWithExtension(rest.value, "png") || EndsWithExtension(rest.value, "gif"))
  }

  /** A string of the form scheme + rest has `rest` after its scheme. */
  lemma AfterSchemeOf(scheme: string, rest: string)
    requires IsScheme(scheme)
    ensures AfterScheme(scheme + rest) == Some(rest)
  {
    var s := scheme + rest;
    assert s[..|scheme|] == scheme;
    if scheme == HTTP {
      // "http://" + rest never starts with "https://": their fifth characters differ
      assert |s| >= |HTTPS| ==> s[4] == ':' && HTTPS[4] == 's';
    }
  }

  /** Any decomposition into the expression's parts puts the string in its language. */
  lemma InLanguageBy(s: string, scheme: string, mid: string, ext: string)
    requires IsScheme(scheme) && NoLineTerminator(mid) && IsExtension(ext)
    requires s == scheme + mid + "." + ext
    ensures InRegexLanguage(s)
  {
  }

  /** The scheme a string starts with, when it starts with one. */
  lemma SchemeSplit(s: string) returns (scheme: string)
    requires AfterScheme(s).Some?
    ensures IsScheme(scheme) && s == scheme + AfterScheme(s).value
  {
    if |s| >= |HTTPS| && s[..|HTTPS|] == HTTPS {
      scheme := HTTPS;
    } else {
      scheme := HTTP;
    }
    assert s == s[..|scheme|] + s[|scheme|..];
  }

  /** A string that ends with "." + `ext` splits into a middle, the dot and `ext`. */
  lemma ExtensionSplit(rest: string, ext: string)
    requires EndsWithExtension(rest, ext)
    ensures rest == rest[..|rest| - |ext| - 1] + "." + ext
  {
    assert rest == rest[..|rest| - |ext| - 1] + rest[|rest| - |ext| - 1..];
  }

  /** A string made of a scheme and a rest ending in "." + `ext` is in the expression's language. */
  lemma InLanguageWith(s: string, scheme: string, rest: string, ext: string)
    requires IsScheme(scheme) && IsExtension(ext) && s == scheme + rest && EndsWithExtension(rest, ext)
    ensures InRegexLanguage(s)
  {
    var mid := rest[..|rest| - |ext| - 1];
    ExtensionSplit(rest, ext);
    assert s == scheme + mid + "." + ext;
    InLanguageBy(s, scheme, mid, ext);
  }

  /** A string the direct check accepts is in the expression's language. */
  lemma MatchesInLanguage(s: string)
    requires ImageUrlMatches(s)
    ensures InRegexLanguage(s)
  {
    var rest := AfterScheme(s).value;
    var scheme := SchemeSplit(s);
    if EndsWithExtension(rest, "jpg") {
      InLanguageWith(s, scheme, rest, "jpg");
    } else if EndsWithExtension(rest, "jpeg") {
      InLanguageWith(s, scheme, rest, "jpeg");
    } else if EndsWithExtension(rest, "png") {
      InLanguageWith(s, scheme, rest, "png");
    } else {
      InLanguageWith(s, scheme, rest, "gif");
    }
  }

  /** A run without line terminators, a dot and an extension end with that extension. */
  lemma EndsWithExtensionOf(mid: string, ext: string)
    requires NoLineTerminator(mid)
    ensures EndsWithExtension(mid + "." + ext, ext)
  {
    var dotExt := "." + ext;
    var rest := mid + dotExt;
    assert mid + "." + ext == rest;
    assert rest[..|mid|] == mid;
    assert rest[|mid|..] == dotExt;
  }

  /** A string of the expression's language passes the direct check. */
  lemma LanguageMatches(scheme: string, mid: string, ext: string)
    requires IsScheme(scheme) && NoLineTerminator(mid) && IsExtension(ext)
    ensures ImageUrlMatches(scheme + mid + "." + ext)
  {
    var rest := mid + "." + ext;
    assert scheme + mid + "." + ext == scheme + rest;
    AfterSchemeOf(scheme, rest);
    EndsWithExtensionOf(mid, ext);
  }

  /** The direct check accepts exactly the strings of the expression's language. */
  lemma ImageUrlMatchesIsRegex(s: string)
    ensures ImageUrlMatches(s) <==> InRegexLanguage(s)
  {
    if ImageUrlMatches(s) {
      MatchesInLanguage(s);
    }
    if InRegexLanguage(s) {
      var scheme, mid, ext :| IsScheme(scheme) && NoLineTerminator(mid) && IsExtension(ext)
        && s == scheme + mid + "." + ext;
      LanguageMatches(scheme, mid, ext);
    }
  }

  /** An accepted string ends with the last letter of its extension. */
  lemma EndsWithExtensionLast(rest: string, ext: string)
    requires EndsWithExtension(rest, ext) && |ext| > 0
    ensures rest[|rest| - 1] == ext[|ext| - 1]
  {
    assert rest[|rest| - 1] == rest[|rest| - |ext| - 1..][|ext|];
  }

  /** After the scheme, a string whose last character ends no extension is refused. */
  lemma RefusedByLastChar(s: string, rest: string)
    requires AfterScheme(s) == Some(rest) && |rest| > 0
    requires rest[|rest| - 1] != 'g' && rest[|rest| - 1] != 'f'
    ensures !ImageUrlMatches(s)
  {
    forall ext | IsExtension(ext)
      ensures !EndsWithExtension(rest, ext)
    {
      if EndsWithExtension(rest, ext) {
        EndsWithExtensionLast(rest, ext);
      }
    }
  }

  /** An https URL ending in ".gif" is accepted. */
  lemma ImageUrlHttpsAccepted()
    ensures ImageUrlMatches("https://x.gif")
  {
    assert NoLineTerminator("x");
    assert HTTPS + "x" + "." + "gif" == "https://x.gif";
    LanguageMatches(HTTPS, "x", "gif");
  }

  /** An http URL whose path holds further characters, ending in ".jpeg", is accepted. */
  lemma ImageUrlHttpAccepted()
    ensures ImageUrlMatches("http://a/b.jpeg")
  {
    assert NoLineTerminator("a/b");
    assert HTTP + "a/b" + "." + "jpeg" == "http://a/b.jpeg";
    LanguageMatches(HTTP, "a/b", "jpeg");
  }

  /** An upper-case extension is refused: the match is case-sensitive. */
  lemma ImageUrlUpperCaseRefused()
    ensures !ImageUrlMatches("https://x.PNG")
  {
    assert "https://x.PNG" == HTTPS + "x.PNG";
    AfterSchemeOf(HTTPS, "x.PNG");
    RefusedByLastChar("https://x.PNG", "x.PNG");
  }

  /** A scheme other than http or https is refused. */
  lemma ImageUrlFtpRefused()
    ensures !ImageUrlMatches("ftp://x.png")
  {
    assert "ftp://x.png"[..|HTTP|] != HTTP by {
      assert "ftp://x.png"[0] == 'f';
    }
    assert "ftp://x.png"[..|HTTPS|] != HTTPS by {
      assert "ftp://x.png"[0] == 'f';
    }
  }

  /** Nothing may follow the extension, not even a newline (`$` without the `m` flag). */
  lemma ImageUrlTrailingNewlineRefused()
    ensures !ImageUrlMatches("https://x.png\n")
  {
    assert "https://x.png\n" == HTTPS + "x.png\n";
    AfterSchemeOf(HTTPS, "x.png\n");
    RefusedByLastChar("https://x.png\n", "x.png\n");
  }

  // ---- the schema's rules ----

  /** The `imageUrl` validator: skipped for an absent or empty value, else the expression must match. */
  predicate ImageUrlOk(o: Option<string>)
  {
    !Truthy(o) || ImageUrlMatches(o.value)
  }

  /** What every stored post satisfies: trimmed non-empty content and an acceptable image URL. */
  predicate ValidPost(p: Post)
  {
    p.content != "" && IsTrimmed(p.content) && ImageUrlOk(p.imageUrl) && p.createdBy != ""
  }

  /**
   * `new Post({...})` followed by `save()`: `content` trimmed, defaults
   * applied (`visibility` "public", `shares` 0, empty lists), then
   * validated; `None` is a ValidationError and nothing is stored.
   */
  function NewPost(id: Id, content: string, imageUrl: Option<string>, createdBy: Id,
                   parentPost: Option<Id>, createdAt: nat): (r: Option<Post>)
    ensures r.Some? <==> Trim(content) != "" && ImageUrlOk(imageUrl) && createdBy != ""
    ensures r.Some? ==> ValidPost(r.value)
    ensures r.Some? ==> r.value.content == Trim(content) && r.value.imageUrl == imageUrl
    ensures r.Some? ==> r.value.id == id && r.value.createdBy == createdBy
    ensures r.Some? ==> r.value.parentPost == parentPost && r.value.createdAt == createdAt
    ensures r.Some? ==> r.value.visibility == Public && r.value.shares == 0
    ensures r.Some? ==> r.value.likes == [] && r.value.comments == []
  {
    TrimSpec(content);
    var p := Post(id, Trim(content), imageUrl, createdBy, Public, [], [], 0, parentPost, createdAt);
    if ValidPost(p) then Some(p) else None
  }
}
