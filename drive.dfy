/**
 * Google Drive links as the download scripts handle them: rewriting a share
 * link into a direct download link, pulling the file ID out of a link for
 * `gdown`, and deciding whether a download is attempted at all. The downloads
 * themselves, the file system and the progress output are outside the model.
 */
module DriveLinks {
  import opened Optional
  import opened PyStr

  const DriveHost := "drive.google.com"
  const FilePath := "/file/d/"
  const IdParam := "id="

  /** `https://drive.google.com/uc?export=download&id=`, written in two parts. */
  const DownloadPrefix := "https://drive.google.com" + "/uc?export=download&id="
  /** `https://drive.google.com/uc?id=`. */
  const GdownPrefix := "https://drive.google.com" + "/uc?id="

  /** The text after the first `/file/d/`, as `url.split("/file/d/")[1]` starts. */
  function AfterFilePath(url: string): string
    requires Contains(url, FilePath)
  {
    url[Find(url, FilePath).value + |FilePath|..]
  }

  /** `url.split("/file/d/")[1].split("/")[0]`, as the source writes it. */
  function FileFormId(url: string): (id: string)
    requires Contains(url, FilePath)
    ensures !Contains(id, "/")
  {
    SplitSecond(url, FilePath);
    SplitHead(Split(url, FilePath)[1], "/");
    Split(Split(url, FilePath)[1], "/")[0]
  }

  /** The ID of a `/file/d/` link is the path segment right after the first `/file/d/`:
      the text up to the next slash. */
  lemma FileFormIdSegment(url: string)
    requires Contains(url, FilePath)
    ensures FileFormId(url) == Before(AfterFilePath(url), "/")
    ensures AfterFilePath(url) == FileFormId(url) + AfterFilePath(url)[|FileFormId(url)|..]
  {
    SplitSecond(url, FilePath);
    SplitHead(Split(url, FilePath)[1], "/");
    BeforeOfBefore(AfterFilePath(url), FilePath, "/");
    var rest := AfterFilePath(url);
    assert rest == rest[..|FileFormId(url)|] + rest[|FileFormId(url)|..];
  }

  /** `url.split("id=")[1].split("&")[0]`. */
  function ParamId(url: string): (id: string)
    requires Contains(url, IdParam)
    ensures !Contains(id, "&")
  {
    SplitSecond(url, IdParam);
    SplitHead(Split(url, IdParam)[1], "&");
    Split(Split(url, IdParam)[1], "&")[0]
  }

  /** The file-ID extraction of both downloaders: the `/file/d/` form first, then the
      `id=` parameter; `None` when neither is in the link. */
  function ExtractFileId(url: string): (id: Option<string>)
    ensures id.Some? <==> Contains(url, FilePath) || Contains(url, IdParam)
  {
    if Contains(url, FilePath) then Some(FileFormId(url))
    else if Contains(url, IdParam) then Some(ParamId(url))
    else None
  }

  /** `get_google_drive_download_url(share_link)`. */
  function DownloadUrl(link: string): (r: string)
    ensures r != link ==> Contains(link, DriveHost) && Contains(link, FilePath)
  {
    if Contains(link, DriveHost) && Contains(link, FilePath) then DownloadPrefix + FileFormId(link)
    else link
  }

  /** No two slashes of the download prefix are seven characters apart, so `/file/d/`
      cannot start inside it. */
  lemma PrefixSlashes()
    ensures forall j :: 0 <= j < |DownloadPrefix| - 7 ==> !(DownloadPrefix[j] == '/' && DownloadPrefix[j + 7] == '/')
  {
    var a := "https://drive.google.com";
    var b := "/uc?export=download&id=";
    assert DownloadPrefix == a + b;
    forall j | 0 <= j < |a + b| - 7 ensures !((a + b)[j] == '/' && (a + b)[j + 7] == '/') {
      if j < 17 {
        assert (a + b)[j + 7] == a[j + 7];
      } else if j < 24 {
        assert (a + b)[j] == a[j];
      } else {
        assert (a + b)[j] == b[j - 24];
      }
    }
  }

  /** A download link built from a slash-free ID holds no `/file/d/`. */
  lemma NoFilePathInDownloadUrl(id: string)
    requires !Contains(id, "/")
    ensures !Contains(DownloadPrefix + id, FilePath)
  {
    var s := DownloadPrefix + id;
    PrefixSlashes();
    ContainsIff(s, FilePath);
    forall j: nat | j <= |s| ensures !OccursAt(s, FilePath, j) {
      if OccursAt(s, FilePath, j) {
        assert s[j] == FilePath[0] == '/' && s[j + 7] == FilePath[7] == '/';
        if j + 7 >= |DownloadPrefix| {
          assert id[j + 7 - |DownloadPrefix|] == '/';
          ContainsChar(id, j + 7 - |DownloadPrefix|);
        }
      }
    }
  }

  /** Rewriting is idempotent: a rewritten link is a download link and stays as it is. */
  lemma DownloadUrlIdempotent(link: string)
    ensures DownloadUrl(DownloadUrl(link)) == DownloadUrl(link)
  {
    if DownloadUrl(link) != link {
      NoFilePathInDownloadUrl(FileFormId(link));
    }
  }

  /** A share link becomes the download prefix and the ID of its first `/file/d/` segment. */
  lemma DownloadUrlOfShareLink(link: string)
    requires Contains(link, DriveHost) && Contains(link, FilePath)
    ensures DownloadUrl(link) == DownloadPrefix + Before(AfterFilePath(link), "/")
  {
    FileFormIdSegment(link);
  }

  /** The download prefix holds `id=` only at its end. */
  lemma PrefixOccurrences()
    ensures forall j :: 0 <= j < |DownloadPrefix| - 3 ==> !OccursAt(DownloadPrefix, IdParam, j)
    ensures DownloadPrefix[|DownloadPrefix| - 3..] == IdParam
  {
    PrefixIdParam();
    forall j | 0 <= j < |DownloadPrefix| - 3 ensures !OccursAt(DownloadPrefix, IdParam, j) {
      var w := DownloadPrefix[j..j + 3];
      assert w[0] == DownloadPrefix[j] && w[1] == DownloadPrefix[j + 1] && w[2] == DownloadPrefix[j + 2];
    }
  }

  /** The only `id=` of the download prefix is the one it ends with. */
  lemma PrefixIdParam()
    ensures forall j :: 0 <= j < |DownloadPrefix| - 3 ==>
              !(DownloadPrefix[j] == 'i' && DownloadPrefix[j + 1] == 'd' && DownloadPrefix[j + 2] == '=')
    ensures DownloadPrefix[|DownloadPrefix| - 3..] == IdParam
  {
    var a := "https://drive.google.com";
    var b := "/uc?export=download&id=";
    assert DownloadPrefix == a + b;
    forall j | 0 <= j < |a + b| - 3
      ensures !((a + b)[j] == 'i' && (a + b)[j + 1] == 'd' && (a + b)[j + 2] == '=')
    {
      if j < 22 {
        assert (a + b)[j + 2] == a[j + 2];
      } else if j < 24 {
        assert (a + b)[j] == a[j];
      } else {
        assert (a + b)[j] == b[j - 24];
      }
    }
    assert (a + b)[|a + b| - 3..] == b[|b| - 3..];
  }

  /** The first `id=` of a download link is the one that ends its prefix. */
  lemma FindIdParamInDownloadUrl(id: string)
    ensures Find(DownloadPrefix + id, IdParam) == Some(|DownloadPrefix| - 3)
  {
    var s := DownloadPrefix + id;
    PrefixOccurrences();
    var p := |DownloadPrefix| - 3;
    assert s[p..p + 3] == DownloadPrefix[p..];
    forall j | 0 <= j < p ensures !OccursAt(s, IdParam, j) {
      assert !OccursAt(DownloadPrefix, IdParam, j);
      assert s[j..j + 3] == DownloadPrefix[j..j + 3];
    }
    FindIs(s, IdParam, p);
  }

  /** The link `ensure_model_exists` hands to the downloader gives back the share link's
      file ID, as long as that ID holds no `&` and no `id=`. */
  lemma ExtractAfterRewrite(link: string)
    requires Contains(link, DriveHost) && Contains(link, FilePath)
    requires !Contains(FileFormId(link), "&") && !Contains(FileFormId(link), IdParam)
    ensures ExtractFileId(DownloadUrl(link)) == Some(FileFormId(link))
  {
    var id := FileFormId(link);
    var s := DownloadPrefix + id;
    NoFilePathInDownloadUrl(id);
    FindIdParamInDownloadUrl(id);
    assert s[|DownloadPrefix|..] == id;
    SplitSecond(s, IdParam);
    ReplaceAbsent(id, IdParam, "");
    assert Split(s, IdParam)[1] == id;
    SplitHead(id, "&");
  }

  /** How `download_model.download_file_from_google_drive` fetches: through `gdown`
      when `import gdown` succeeds (`gdownAvailable`) and an ID is found (an empty ID
      is false in Python and counts as none), through `requests` on the link itself
      otherwise. */
  datatype Fetch = Gdown(url: string) | Requests(url: string)

  function ModelFetch(url: string, gdownAvailable: bool): (f: Fetch)
    ensures f.Gdown? <==> gdownAvailable && ExtractFileId(url).Some? && ExtractFileId(url).value != ""
    ensures f.Gdown? ==> f.url == GdownPrefix + ExtractFileId(url).value
    ensures f.Requests? ==> f.url == url
  {
    if !gdownAvailable then Requests(url)
    else
      match ExtractFileId(url)
      case Some(id) => if id != "" then Gdown(GdownPrefix + id) else Requests(url)
      case None => Requests(url)
  }

  /** `download_code.download_file_from_google_drive`: the `gdown` link, or `None` when
      `import gdown` fails or no ID is found, and the function returns `False` without
      downloading. */
  function LoaderFetch(url: string, gdownAvailable: bool): (r: Option<string>)
    ensures r.None? <==> !gdownAvailable || ExtractFileId(url).None? || ExtractFileId(url).value == ""
    ensures r.Some? ==> r.value == GdownPrefix + ExtractFileId(url).value
  {
    if !gdownAvailable then None
    else
      match ExtractFileId(url)
      case Some(id) => if id != "" then Some(GdownPrefix + id) else None
      case None => None
  }

  /** The `/file/d/` form wins over an `id=` parameter in the same link. */
  lemma FileFormFirst(url: string)
    requires Contains(url, FilePath) && Contains(url, IdParam)
    ensures ExtractFileId(url) == Some(Before(AfterFilePath(url), "/"))
  {
    FileFormIdSegment(url);
  }

  /** Without `/file/d/`, the ID is the text after the first `id=` up to the first `&`
      (or up to a second `id=`, should one come first). */
  lemma ParamForm(url: string)
    requires !Contains(url, FilePath) && Contains(url, IdParam)
    ensures var rest := url[Find(url, IdParam).value + |IdParam|..];
            ExtractFileId(url) == Some(Before(Before(rest, IdParam), "&"))
            && (!Contains(rest, IdParam) ==> ExtractFileId(url) == Some(Before(rest, "&")))
  {
    SplitSecond(url, IdParam);
    var rest := url[Find(url, IdParam).value + |IdParam|..];
    SplitHead(Split(url, IdParam)[1], "&");
  }

  /** What the two `ensure_…_exists` functions do once they have looked for the file. */
  datatype Action = AlreadyPresent | NotConfigured | Download(url: string)

  const ModelPlaceholder := "your_google_drive_model_link_here"

  /** `ensure_model_exists()`: `sizeMb` is the size of the model file when it exists; a
      file under 1 MB is removed and downloaded again. */
  function EnsureModel(sizeMb: Option<real>, modelUrl: string): (a: Action)
    ensures a.Download? ==> modelUrl != "" && modelUrl != ModelPlaceholder && a.url == DownloadUrl(modelUrl)
    ensures a == AlreadyPresent <==> sizeMb.Some? && sizeMb.value >= 1.0
    ensures a == NotConfigured <==> (sizeMb.None? || sizeMb.value < 1.0) && (modelUrl == "" || modelUrl == ModelPlaceholder)
  {
    if sizeMb.Some? && sizeMb.value >= 1.0 then AlreadyPresent
    else if modelUrl == "" || modelUrl == ModelPlaceholder then NotConfigured
    else Download(DownloadUrl(modelUrl))
  }

  /** `ensure_model_loader_exists()`: the link is used as it is, without rewriting. */
  function EnsureModelLoader(present: bool, loaderUrl: string): (a: Action)
    ensures a.Download? <==> !present && loaderUrl != ""
    ensures a.Download? ==> a.url == loaderUrl
  {
    if present then AlreadyPresent
    else if loaderUrl == "" then NotConfigured
    else Download(loaderUrl)
  }
}
