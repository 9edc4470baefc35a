/**
 * Media classification of one gallery item (`getMediaInfo`), the YouTube
 * thumbnail and embed URLs derived from a video id, and the choice the card
 * and modal renderers make between an image, a YouTube player and another
 * embedded video.
 */
module Media {
  import opened Wrappers
  import opened YouTubeUrl
  import opened YouTubeForms
  import opened Text

  /** One APOD record as the API returns it. Optional fields are `None` when absent. */
  datatype Item = Item(
    date: string,
    title: string,
    explanation: string,
    mediaType: string,
    url: Option<string>,
    hdurl: Option<string>,
    thumbnailUrl: Option<string>)

  /** The record `getMediaInfo` returns. */
  datatype MediaInfo = MediaInfo(
    isImage: bool,
    isYouTube: bool,
    isVideo: bool,
    videoId: Option<string>,
    thumbnailUrl: Option<string>)

  /** What the card and the modal show for an item. */
  datatype Presentation =
    | Image(cardSrc: Option<string>, modalSrc: Option<string>)
    | YouTube(embedUrl: string, thumb: string)
    | OtherVideo(src: Option<string>, thumb: string)

  const ThumbnailPrefix: string := "https://img.youtube.com/vi/"
  const ThumbnailSuffix: string := "/hqdefault.jpg"
  const EmbedPrefix: string := "https://www.youtube.com/embed/"
  const EmbedSuffix: string := "?autoplay=1&rel=0"

  /** The fixed picture a non-image card shows when it has no thumbnail. */
  const Placeholder: string :=
    "https://images.unsplash.com/photo-1454789548928-9efd52dc4031?auto=format&fit=crop&w=1480&q=80"

  /** JavaScript truthiness of an optional string: present and non-empty. */
  predicate Truthy(v: Option<string>) {
    v.Some? && v.value != ""
  }

  /** `getYouTubeThumbnail(videoId)`: the high-quality still of a video. */
  function Thumbnail(id: string): (url: string)
    ensures |url| == |ThumbnailPrefix| + |id| + |ThumbnailSuffix|
    ensures url[..|ThumbnailPrefix|] == ThumbnailPrefix
    ensures url[|ThumbnailPrefix|..|ThumbnailPrefix| + |id|] == id
  {
    ThumbnailPrefix + id + ThumbnailSuffix
  }

  /** `getYouTubeEmbedUrl(videoId)`: the autoplaying player of a video. */
  function EmbedUrl(id: string): (url: string)
    ensures |url| == |EmbedPrefix| + |id| + |EmbedSuffix|
    ensures url[..|EmbedPrefix|] == EmbedPrefix
    ensures url[|EmbedPrefix|..|EmbedPrefix| + |id|] == id
  {
    EmbedPrefix + id + EmbedSuffix
  }

  /** Different ids give different thumbnails. */
  lemma ThumbnailInjective(a: string, b: string)
    ensures Thumbnail(a) == Thumbnail(b) ==> a == b
  {
    if Thumbnail(a) == Thumbnail(b) {
      assert |a| == |b|;
    }
  }

  /** Different ids give different embed URLs. */
  lemma EmbedUrlInjective(a: string, b: string)
    ensures EmbedUrl(a) == EmbedUrl(b) ==> a == b
  {
    if EmbedUrl(a) == EmbedUrl(b) {
      assert |a| == |b|;
    }
  }

  /** No character of the embed URL's scheme and subdomain can start a host. */
  lemma EmbedSchemeHasNoHost()
    ensures NoHostStart("https://www.")
  {
    var pre := "https://www.";
    forall i | 0 <= i < |pre| ensures Fold(pre[i]) != 'y' {
      assert pre[i] in {'h', 't', 'p', 's', ':', '/', 'w', '.'};
    }
  }

  /** The embed URL's host is the pattern's `youtube.com/`. */
  lemma EmbedHostIsLongHost()
    ensures LitAt("youtube.com/", 0, LongHost)
  {
    forall k | 0 <= k < |LongHost| ensures Fold("youtube.com/"[0 + k]) == LongHost[k] {
      assert "youtube.com/"[k] == LongHost[k];
    }
  }

  /** The embed URL's path is the pattern's `embed/` keyword, and its query
      has no slash. */
  lemma EmbedKeywordAndQuery()
    ensures LitAt("embed/", 0, "embed/")
    ensures NoSlash(EmbedSuffix)
  {
    forall k | 0 <= k < 6 ensures Fold("embed/"[0 + k]) == "embed/"[k] { }
    forall i | 0 <= i < |EmbedSuffix| ensures EmbedSuffix[i] != '/' {
      assert EmbedSuffix[i] in {'?', 'a', 'u', 't', 'o', 'p', 'l', 'y', '=', '1', '&', 'r', 'e', '0'};
    }
  }

  /** The embed URL of a valid id is itself recognised, with the same id. */
  lemma EmbedUrlRoundTrip(id: string)
    requires IsVideoId(id)
    ensures IsYouTubeVideo(Some(EmbedUrl(id)))
    ensures VideoId(EmbedUrl(id)) == Some(id)
  {
    EmbedSchemeHasNoHost();
    EmbedHostIsLongHost();
    EmbedKeywordAndQuery();
    assert EmbedUrl(id) == "https://www." + "youtube.com/" + "embed/" + id + EmbedSuffix;
    EmbedForm("https://www.", "youtube.com/", "embed/", id, EmbedSuffix);
    IsYouTubeVideoAgreesWithVideoId(Some(EmbedUrl(id)));
  }

  /**
   * `getMediaInfo(item)`. `isYouTube` looks at the url alone, so an image
   * whose url matches the pattern has both `isImage` and `isYouTube` set.
   */
  function GetMediaInfo(item: Item): (info: MediaInfo)
    ensures info.isImage <==> item.mediaType == "image"
    ensures info.isYouTube <==> item.url.Some? && exists p: nat, path :: Accepts(item.url.value, p, path)
    ensures info.isVideo <==> !info.isImage && !info.isYouTube
    ensures info.videoId.Some? <==> info.isYouTube
    ensures info.isYouTube ==>
      && info.videoId == VideoId(item.url.value)
      && IsVideoId(info.videoId.value)
      && info.thumbnailUrl == Some(Thumbnail(info.videoId.value))
    ensures !info.isYouTube ==> info.thumbnailUrl == item.thumbnailUrl
  {
    IsYouTubeVideoAgreesWithVideoId(item.url);
    var isImage := item.mediaType == "image";
    var isYouTube := IsYouTubeVideo(item.url);
    MediaInfo(
      isImage,
      isYouTube,
      !isImage && !isYouTube,
      if isYouTube then VideoId(item.url.value) else None,
      if isYouTube then Some(Thumbnail(VideoId(item.url.value).value)) else item.thumbnailUrl)
  }

  /** `thumbnailUrl || placeholder` on a card. */
  function CardThumb(thumb: Option<string>): (src: string)
    ensures src != ""
    ensures Truthy(thumb) ==> src == thumb.value
  {
    if Truthy(thumb) then thumb.value else Placeholder
  }

  /**
   * The media `cardTemplate` and `openModal` choose. An image always shows as
   * an image, whatever its url: `url` on the card, `hdurl || url` in the
   * modal. Otherwise a YouTube url plays through the embed URL of its id
   * with that id's thumbnail, and anything else is framed from its raw url
   * with its own thumbnail or the placeholder.
   */
  function Present(item: Item): (shown: Presentation)
    ensures item.mediaType == "image" ==>
      shown == Image(item.url, if Truthy(item.hdurl) then item.hdurl else item.url)
    ensures item.mediaType != "image" && IsYouTubeVideo(item.url) ==>
      && item.url.Some?
      && VideoId(item.url.value).Some?
      && shown == YouTube(EmbedUrl(VideoId(item.url.value).value), Thumbnail(VideoId(item.url.value).value))
    ensures item.mediaType != "image" && !IsYouTubeVideo(item.url) ==>
      shown == OtherVideo(item.url, if Truthy(item.thumbnailUrl) then item.thumbnailUrl.value else Placeholder)
    ensures !shown.Image? ==> shown.thumb != ""
  {
    var info := GetMediaInfo(item);
    if info.isImage then
      Image(item.url, if Truthy(item.hdurl) then item.hdurl else item.url)
    else if info.isYouTube then
      YouTube(EmbedUrl(info.videoId.value), CardThumb(info.thumbnailUrl))
    else
      OtherVideo(item.url, CardThumb(info.thumbnailUrl))
  }

  /** The player the modal opens shows the same video the item's url names. */
  lemma YouTubePlaysSameVideo(item: Item)
    requires Present(item).YouTube?
    ensures item.url.Some?
    ensures VideoId(Present(item).embedUrl) == VideoId(item.url.value)
    ensures IsYouTubeVideo(Some(Present(item).embedUrl))
  {
    assert item.mediaType != "image";
    IsYouTubeVideoAgreesWithVideoId(item.url);
    EmbedUrlRoundTrip(VideoId(item.url.value).value);
  }

  /** A video item whose url is a short `youtu.be` link. */
  const ShortLinkVideo: Item := Item(
    "2024-01-02", "A talk", "", "video",
    Some("https://youtu.be/dQw4w9WgXcQ"), None, None)

  /** No character of `https://` can start a host. */
  lemma HttpsHasNoHost()
    ensures NoHostStart("https://")
  {
    var pre := "https://";
    forall i | 0 <= i < |pre| ensures Fold(pre[i]) != 'y' {
      assert pre[i] in {'h', 't', 'p', 's', ':', '/'};
    }
  }

  /** The short link's host is the pattern's `youtu.be/`. */
  lemma ShortLinkHost()
    ensures LitAt("youtu.be/", 0, ShortHost)
  {
    forall k | 0 <= k < |ShortHost| ensures Fold("youtu.be/"[0 + k]) == ShortHost[k] {
      assert "youtu.be/"[k] == ShortHost[k];
    }
  }

  /** The short link's id is made of allowed characters. */
  lemma ShortLinkIdChars()
    ensures IdAt("dQw4w9WgXcQ", 0)
  {
    var id := "dQw4w9WgXcQ";
    forall k | 0 <= k < IdLength ensures IsIdChar(id[k]) {
      assert id[k] in {'d', 'Q', 'w', '4', '9', 'W', 'g', 'X', 'c'};
    }
  }

  /** The pattern finds the id of the short link. */
  lemma ShortLinkId()
    ensures VideoId(ShortLinkVideo.url.value) == Some("dQw4w9WgXcQ")
  {
    HttpsHasNoHost();
    ShortLinkHost();
    ShortLinkIdChars();
    assert ShortLinkVideo.url.value == "https://" + "youtu.be/" + "dQw4w9WgXcQ";
    ShortForm("https://", "youtu.be/", "dQw4w9WgXcQ");
    assert "dQw4w9WgXcQ"[..IdLength] == "dQw4w9WgXcQ";
  }

  /** A `youtu.be` link is recognised. */
  lemma ShortLinkIsYouTube()
    ensures IsYouTubeVideo(ShortLinkVideo.url)
  {
    ShortLinkId();
    IsYouTubeVideoAgreesWithVideoId(ShortLinkVideo.url);
  }

  /** A `youtu.be` video plays in the embed player with the YouTube still. */
  lemma ShortLinkVideoPlays()
    ensures GetMediaInfo(ShortLinkVideo).isYouTube
    ensures GetMediaInfo(ShortLinkVideo).videoId == Some("dQw4w9WgXcQ")
    ensures Present(ShortLinkVideo) == YouTube(EmbedUrl("dQw4w9WgXcQ"), Thumbnail("dQw4w9WgXcQ"))
  {
    ShortLinkId();
    ShortLinkIsYouTube();
    var item := ShortLinkVideo;
    assert item.mediaType != "image";
  }

  /** The same url on an image record: flagged YouTube, yet shown as an image. */
  lemma ImageWithYouTubeUrl()
    ensures GetMediaInfo(ShortLinkVideo.(mediaType := "image")).isImage
    ensures GetMediaInfo(ShortLinkVideo.(mediaType := "image")).isYouTube
    ensures !GetMediaInfo(ShortLinkVideo.(mediaType := "image")).isVideo
    ensures Present(ShortLinkVideo.(mediaType := "image")) == Image(ShortLinkVideo.url, ShortLinkVideo.url)
  {
    ShortLinkVideoPlays();
  }
}
