/**
 * The two link classifiers of src-tauri/src/utils/url.rs: both are plain
 * substring tests over the whole link.
 */
module Url {
  import opened Text

  const InstagramHost: string := "instagram.com/"
  const PostPath: string := "/p/"
  const TiktokHost: string := "tiktok.com/"
  const PhotoPath: string := "/photo/"

  /** `p` occurs somewhere in `u`: the reference reading of Rust's `contains`. */
  ghost predicate OccursIn(u: string, p: string) {
    exists i: nat :: OccursAt(u, p, i)
  }

  lemma ContainsOccurs(u: string, p: string)
    ensures Contains(u, p) <==> OccursIn(u, p)
  {
    if OccursIn(u, p) {
      var i: nat :| OccursAt(u, p, i);
      ContainsAt(u, p, i);
    }
  }

  /** `is_instagram_post`. */
  predicate IsInstagramPost(u: string) {
    Contains(u, InstagramHost) && Contains(u, PostPath)
  }

  /** `is_tiktok_photo`. */
  predicate IsTiktokPhoto(u: string) {
    Contains(u, TiktokHost) && Contains(u, PhotoPath)
  }

  /** A link is an Instagram post exactly when both fragments occur in it, anywhere and in any order. */
  lemma InstagramPostIff(u: string)
    ensures IsInstagramPost(u) <==> OccursIn(u, InstagramHost) && OccursIn(u, PostPath)
  {
    ContainsOccurs(u, InstagramHost);
    ContainsOccurs(u, PostPath);
  }

  /** A link is a TikTok photo exactly when both fragments occur in it. */
  lemma TiktokPhotoIff(u: string)
    ensures IsTiktokPhoto(u) <==> OccursIn(u, TiktokHost) && OccursIn(u, PhotoPath)
  {
    ContainsOccurs(u, TiktokHost);
    ContainsOccurs(u, PhotoPath);
  }

  /** Neither holds for the empty link. */
  lemma EmptyMatchesNeither()
    ensures !IsInstagramPost([]) && !IsTiktokPhoto([])
  {
    NotContainsInEmpty(InstagramHost);
    NotContainsInEmpty(TiktokHost);
  }

  /** Text added before or after a matching link (a query, a fragment, a scheme) keeps it matching. */
  lemma ClassifiersKeptByExtension(u: string, t: string)
    ensures IsInstagramPost(u) ==> IsInstagramPost(u + t) && IsInstagramPost(t + u)
    ensures IsTiktokPhoto(u) ==> IsTiktokPhoto(u + t) && IsTiktokPhoto(t + u)
  {
    if IsInstagramPost(u) {
      ContainsAppend(u, t, InstagramHost);
      ContainsAppend(u, t, PostPath);
    }
    if IsTiktokPhoto(u) {
      ContainsAppend(u, t, TiktokHost);
      ContainsAppend(u, t, PhotoPath);
    }
  }

  /** A typical post link is recognised. */
  lemma InstagramPostExample()
    ensures IsInstagramPost("https://www.instagram.com/p/abc/")
  {
    var u := "https://www.instagram.com/p/abc/";
    assert OccursAt(u, InstagramHost, 12);
    assert OccursAt(u, PostPath, 25);
    ContainsAt(u, InstagramHost, 12);
    ContainsAt(u, PostPath, 25);
  }
}
