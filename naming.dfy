/** The string conventions that mark a field as a blob reference, and the
    names, object keys and public URLs derived from it on both sides:
    backup.js:76-77 (export) and restore.js:59, 97-101, 106, 113 (import). */
module Naming {
  import opened Model

  /** A field value is a remote blob reference when it starts with this. */
  const BlobUrlPrefix: string := Scheme + "firebasestorage"
  /** A field value is a local blob reference when it starts with this. */
  const SentinelTag: string := "firebasestorage---"
  const Scheme: string := "https://"
  /** Host and path head of the public URLs built by the restore tool. */
  const PublicUrlHead: string := Scheme + PublicHost + "/v0/b/"
  const PublicHost: string := "firebasestorage" + ".googleapis.com"

  /** Export side: a string field starting with the remote prefix. */
  predicate IsBlobUrl(v: Value)
  {
    v.Str? && StartsWith(v.s, BlobUrlPrefix)
  }

  /** Import side: a string field starting with the sentinel tag. */
  predicate IsSentinelName(v: Value)
  {
    v.Str? && StartsWith(v.s, SentinelTag)
  }

  // ---------------------------------------------------------------------
  // Scanning helpers

  /** Index of the first character of `s` that belongs to `cs`, or |s|. */
  function FirstOf(s: string, cs: set<char>): nat
  {
    if s == [] then 0
    else if s[0] in cs then 0
    else 1 + FirstOf(s[1..], cs)
  }

  lemma {:induction false} FirstOfSpec(s: string, cs: set<char>)
    ensures FirstOf(s, cs) <= |s|
    ensures forall k :: 0 <= k < FirstOf(s, cs) ==> s[k] !in cs
    ensures FirstOf(s, cs) < |s| ==> s[FirstOf(s, cs)] in cs
  {
    if s != [] && s[0] !in cs {
      FirstOfSpec(s[1..], cs);
    }
  }

  /** The contract of FirstOf pins down its result. */
  lemma {:induction false} FirstOfUnique(s: string, cs: set<char>, i: nat)
    requires i <= |s|
    requires forall k :: 0 <= k < i ==> s[k] !in cs
    requires i < |s| ==> s[i] in cs
    ensures FirstOf(s, cs) == i
  {
    if s != [] && i > 0 {
      assert s[0] !in cs;
      FirstOfUnique(s[1..], cs, i - 1);
    }
  }

  lemma FirstOfAppend(a: string, b: string, cs: set<char>)
    requires forall k :: 0 <= k < |a| ==> a[k] !in cs
    ensures FirstOf(a + b, cs) == |a| + FirstOf(b, cs)
  {
    FirstOfSpec(b, cs);
    var j := FirstOf(b, cs);
    var ab := a + b;
    forall k | 0 <= k < |a| + j
      ensures ab[k] !in cs
    {
      if k >= |a| {
        assert ab[k] == b[k - |a|];
      }
    }
    if |a| + j < |ab| {
      assert ab[|a| + j] == b[j];
    }
    FirstOfUnique(ab, cs, |a| + j);
  }

  /** The part of `p` after its last '/', as `p.split('/').pop()` yields
      it: the whole of `p` when it holds no '/'. */
  function LastSegment(p: string): string
  {
    if p == [] then []
    else if p[|p| - 1] == '/' then []
    else LastSegment(p[..|p| - 1]) + [p[|p| - 1]]
  }

  /** The last segment is a suffix free of '/', preceded by a '/' unless
      it is the whole string. */
  lemma {:induction false} LastSegmentSpec(p: string)
    ensures var seg := LastSegment(p);
            |seg| <= |p| && seg == p[|p| - |seg|..] && '/' !in seg &&
            (|seg| < |p| ==> p[|p| - |seg| - 1] == '/')
  {
    if p != [] && p[|p| - 1] != '/' {
      var q, c := p[..|p| - 1], p[|p| - 1];
      LastSegmentSpec(q);
      var seg := LastSegment(q);
      assert LastSegment(p) == seg + [c];
      assert p == q + [c];
      NotInJoin(seg, [c], '/');
      SuffixOfSnoc(q, c, |seg|);
    }
  }

  lemma SuffixOfSnoc(q: string, c: char, n: nat)
    requires n <= |q|
    ensures var p := q + [c];
            p[|p| - n - 1..] == q[|q| - n..] + [c] &&
            (n < |q| ==> p[|p| - n - 2] == q[|q| - n - 1])
  {
  }

  /** A '/'-free tail behind a '/' (or behind nothing) is the last segment. */
  lemma {:induction false} LastSegmentOfSuffix(pre: string, seg: string)
    requires '/' !in seg
    requires pre == [] || pre[|pre| - 1] == '/'
    ensures LastSegment(pre + seg) == seg
  {
    if seg != [] {
      var last := seg[|seg| - 1];
      assert last in seg;
      var rest := seg[..|seg| - 1];
      assert '/' !in rest by {
        assert forall c :: c in rest ==> c in seg;
      }
      assert (pre + seg)[..|pre + seg| - 1] == pre + rest;
      LastSegmentOfSuffix(pre, rest);
      assert seg == rest + [last];
    } else {
      assert pre + seg == pre;
    }
  }

  /** The contract of LastSegment pins down its result. */
  lemma LastSegmentUnique(p: string, seg: string)
    requires |seg| <= |p| && seg == p[|p| - |seg|..]
    requires '/' !in seg
    requires |seg| < |p| ==> p[|p| - |seg| - 1] == '/'
    ensures LastSegment(p) == seg
  {
    var pre := p[..|p| - |seg|];
    assert p == pre + seg;
    LastSegmentOfSuffix(pre, seg);
  }

  lemma LastSegmentOfJoin(dir: string, name: string)
    requires '/' !in name
    ensures LastSegment(dir + "/" + name) == name
  {
    var p := dir + "/" + name;
    assert p[|p| - |name|..] == name;
    if |name| < |p| {
      assert p[|p| - |name| - 1] == '/';
    }
    LastSegmentUnique(p, name);
  }

  // ---------------------------------------------------------------------
  // Export: the local name of a blob field (backup.js:77)

  /** `new URL(url).pathname` for an https URL: the text from the first
      '/' after the host up to the query or fragment, or "/" when the URL
      has no path. */
  function Pathname(url: string): (p: string)
    requires StartsWith(url, Scheme)
    ensures |p| > 0 && p[0] == '/'
    ensures '?' !in p && '#' !in p
  {
    var rest := url[|Scheme|..];
    FirstOfSpec(rest, {'/', '?', '#'});
    var a := FirstOf(rest, {'/', '?', '#'});
    if a == |rest| || rest[a] != '/' then "/"
    else
      var tail := rest[a..];
      FirstOfSpec(tail, {'?', '#'});
      var e := FirstOf(tail, {'?', '#'});
      assert e > 0 by { assert tail[0] == '/'; }
      assert forall k :: 0 <= k < e ==> tail[..e][k] == tail[k];
      tail[..e]
  }

  lemma BlobUrlIsHttps(url: string)
    requires StartsWith(url, BlobUrlPrefix)
    ensures StartsWith(url, Scheme)
  {
    assert url[..|Scheme|] == url[..|BlobUrlPrefix|][..|Scheme|];
  }

  /** The file name a blob field is stored under locally: the sentinel tag
      followed by the last segment of the URL's path. */
  function LocalName(url: string): (name: string)
    requires StartsWith(url, BlobUrlPrefix)
    ensures StartsWith(name, SentinelTag)
    ensures name[|SentinelTag|..] == LastSegment(Pathname(url))
    ensures '/' !in name && '?' !in name && '#' !in name
  {
    BlobUrlIsHttps(url);
    LastSegmentSpec(Pathname(url));
    var seg := LastSegment(Pathname(url));
    LocalNameChars(seg);
    SentinelTag + seg
  }

  lemma LocalNameChars(seg: string)
    requires '/' !in seg && '?' !in seg && '#' !in seg
    ensures var name := SentinelTag + seg;
            StartsWith(name, SentinelTag) && name[|SentinelTag|..] == seg &&
            '/' !in name && '?' !in name && '#' !in name
  {
    var name := SentinelTag + seg;
    assert name[|SentinelTag|..] == seg;
    SentinelTagChars();
    NotInJoin(SentinelTag, seg, '/');
    NotInJoin(SentinelTag, seg, '?');
    NotInJoin(SentinelTag, seg, '#');
  }

  lemma SentinelTagChars()
    ensures '/' !in SentinelTag && '?' !in SentinelTag && '#' !in SentinelTag
  {
  }

  // ---------------------------------------------------------------------
  // Import: the upload plan of a sidecar file (restore.js:97-100)

  /** `s` holds `pat` at index `j`. */
  predicate OccursAt(s: string, pat: string, j: nat)
  {
    j + |pat| <= |s| && s[j..j + |pat|] == pat
  }

  /** Index of the first occurrence of `pat` in `s` at or after `from`. */
  function IndexOfFrom(s: string, pat: string, from: nat): Option<nat>
    requires from <= |s| + 1
    decreases |s| + 1 - from
  {
    if from + |pat| > |s| then None
    else if s[from..from + |pat|] == pat then Some(from)
    else IndexOfFrom(s, pat, from + 1)
  }

  /** The search finds an occurrence, and none comes before it. */
  lemma {:induction false} IndexOfFromSpec(s: string, pat: string, from: nat)
    requires from <= |s| + 1
    ensures var r := IndexOfFrom(s, pat, from);
            (r.Some? ==> from <= r.value && OccursAt(s, pat, r.value)) &&
            (forall j :: from <= j && (r.None? || j < r.value) ==> !OccursAt(s, pat, j))
    decreases |s| + 1 - from
  {
    if from + |pat| <= |s| && s[from..from + |pat|] != pat {
      IndexOfFromSpec(s, pat, from + 1);
    }
  }

  /** `s.replace(pat, rep)` with a string pattern: only the first
      occurrence is replaced. */
  function ReplaceFirst(s: string, pat: string, rep: string): string
  {
    IndexOfFromSpec(s, pat, 0);
    match IndexOfFrom(s, pat, 0)
    case None => s
    case Some(i) => s[..i] + rep + s[i + |pat|..]
  }

  /** `p` without its trailing run of '/'. */
  function TrimTrailingSlashes(p: string): string
  {
    if p == [] || p[|p| - 1] != '/' then p
    else TrimTrailingSlashes(p[..|p| - 1])
  }

  /** Trimming leaves a prefix that does not end in '/', followed only by
      '/' in the original. */
  lemma {:induction false} TrimTrailingSlashesSpec(p: string)
    ensures var q := TrimTrailingSlashes(p);
            |q| <= |p| && q == p[..|q|] && (q == [] || q[|q| - 1] != '/') &&
            (forall k :: |q| <= k < |p| ==> p[k] == '/')
  {
    if p != [] && p[|p| - 1] == '/' {
      TrimTrailingSlashesSpec(p[..|p| - 1]);
    }
  }

  /** POSIX `path.basename`: the last segment once trailing '/' are gone. */
  function Basename(p: string): string
  {
    LastSegment(TrimTrailingSlashes(p))
  }

  lemma BasenameOfJoin(dir: string, name: string)
    requires name != [] && '/' !in name
    ensures Basename(dir + "/" + name) == name
  {
    var p := dir + "/" + name;
    assert p[|p| - 1] == name[|name| - 1];
    assert TrimTrailingSlashes(p) == p;
    LastSegmentOfJoin(dir, name);
  }

  /** `.replace(/\/$/g, '')`: drops one '/' at the very end, if any. */
  function StripFinalSlash(s: string): string
  {
    if s != [] && s[|s| - 1] == '/' then s[..|s| - 1] else s
  }

  /** Value of one hexadecimal digit. */
  function HexValue(c: char): Option<nat>
  {
    if '0' <= c <= '9' then Some(c as nat - '0' as nat)
    else if 'a' <= c <= 'f' then Some(c as nat - 'a' as nat + 10)
    else if 'A' <= c <= 'F' then Some(c as nat - 'A' as nat + 10)
    else None
  }

  /** `decodeURIComponent` over ASCII escapes: every "%XY" with two hex
      digits below %80 becomes that character; a '%' that does not start
      such an escape makes the call throw (None). */
  function PercentDecode(s: string): Option<string>
  {
    if s == [] then Some([])
    else if s[0] != '%' then
      match PercentDecode(s[1..])
      case None => None
      case Some(t) => Some([s[0]] + t)
    else if |s| < 3 then None
    else match (HexValue(s[1]), HexValue(s[2]))
      case (Some(h), Some(l)) =>
        if 16 * h + l < 128 then
          match PercentDecode(s[3..])
          case None => None
          case Some(t) => Some([(16 * h + l) as char] + t)
        else None
      case _ => None
  }

  /** The characters `encodeURIComponent` leaves as they are. */
  predicate Unreserved(c: char)
  {
    ('A' <= c <= 'Z') || ('a' <= c <= 'z') || ('0' <= c <= '9') ||
    c in {'-', '_', '.', '!', '~', '*', '\'', '(', ')'}
  }

  predicate IsAscii(s: string)
  {
    forall k :: 0 <= k < |s| ==> s[k] as nat < 128
  }

  function HexDigit(n: nat): (c: char)
    requires n < 16
    ensures HexValue(c) == Some(n)
  {
    if n < 10 then (n + '0' as nat) as char else (n - 10 + 'A' as nat) as char
  }

  /** `encodeURIComponent` over ASCII text, the escaping under which an
      object path appears inside a blob URL. */
  function PercentEncode(s: string): (r: string)
    requires IsAscii(s)
    ensures '/' !in r && '?' !in r && '#' !in r
  {
    if s == [] then []
    else
      var head :=
        if Unreserved(s[0]) then [s[0]]
        else ['%', HexDigit(s[0] as nat / 16), HexDigit(s[0] as nat % 16)];
      head + PercentEncode(s[1..])
  }

  /** Decoding undoes encoding. */
  lemma {:induction false} DecodeEncode(s: string)
    requires IsAscii(s)
    ensures PercentDecode(PercentEncode(s)) == Some(s)
  {
    if s != [] {
      DecodeEncode(s[1..]);
      if Unreserved(s[0]) {
        DecodeEncodeKept(s);
      } else {
        DecodeEncodeEscaped(s);
      }
    }
  }

  lemma DecodeEncodeKept(s: string)
    requires IsAscii(s) && s != [] && Unreserved(s[0])
    requires PercentDecode(PercentEncode(s[1..])) == Some(s[1..])
    ensures PercentDecode(PercentEncode(s)) == Some(s)
  {
    var rest := PercentEncode(s[1..]);
    assert s[0] != '%';
    assert PercentEncode(s) == [s[0]] + rest;
    assert ([s[0]] + rest)[1..] == rest;
    assert [s[0]] + s[1..] == s;
  }

  lemma DecodeEncodeEscaped(s: string)
    requires IsAscii(s) && s != [] && !Unreserved(s[0])
    requires PercentDecode(PercentEncode(s[1..])) == Some(s[1..])
    ensures PercentDecode(PercentEncode(s)) == Some(s)
  {
    var rest := PercentEncode(s[1..]);
    var h, l := s[0] as nat / 16, s[0] as nat % 16;
    assert 16 * h + l == s[0] as nat < 128;
    assert PercentEncode(s) == ['%', HexDigit(h), HexDigit(l)] + rest;
    DecodeEscape(HexDigit(h), HexDigit(l), rest);
    assert [s[0]] + s[1..] == s;
  }

  /** Decoding an escape of two hex digits below %80. */
  lemma DecodeEscape(hi: char, lo: char, t: string)
    requires HexValue(hi).Some? && HexValue(lo).Some?
    requires 16 * HexValue(hi).value + HexValue(lo).value < 128
    ensures var c := (16 * HexValue(hi).value + HexValue(lo).value) as char;
            PercentDecode(['%', hi, lo] + t) ==
            if PercentDecode(t).None? then None else Some([c] + PercentDecode(t).value)
  {
    var e := ['%', hi, lo] + t;
    assert e[0] == '%' && e[1] == hi && e[2] == lo && e[3..] == t;
  }

  /** What the restore tool derives from a sidecar file path. */
  datatype UploadPlan = UploadPlan(
    rawFilename: string,  // the file's basename without the sentinel tag, still URL-encoded
    rawPath: string,      // rawFilename URL-decoded: the object path
    filename: string,     // the basename of rawPath
    destination: string)  // the object's folder as the source computes it

  /** restore.js:97: strip the first occurrence of the sentinel tag from
      the file's basename. */
  function RawFilename(filepath: Path): string
  {
    ReplaceFirst(Basename(filepath), SentinelTag, "")
  }

  /** restore.js:99-100: basename and folder of the decoded path. */
  function PlanFromPath(raw: string, rawPath: string): UploadPlan
  {
    var filename := Basename(rawPath);
    UploadPlan(raw, rawPath, filename, StripFinalSlash(ReplaceFirst(rawPath, filename, "")))
  }

  /** restore.js:97-100, as written; None when decoding throws. */
  function PlanUpload(filepath: Path): Option<UploadPlan>
  {
    var raw := RawFilename(filepath);
    match PercentDecode(raw)
    case None => None
    case Some(rawPath) => Some(PlanFromPath(raw, rawPath))
  }

  /** restore.js:106, as written: the object key the upload is sent to. */
  function UploadKeyAsWritten(plan: UploadPlan): string
  {
    plan.destination + "/" + plan.filename
  }

  /** The object key the upload was evidently meant to use: the decoded
      path's folder (found from the end, not by a first-match search) and
      its basename, with no '/' in front of a top-level object. */
  function UploadKey(rawPath: string): string
  {
    var trimmed := TrimTrailingSlashes(rawPath);
    LastSegmentSpec(trimmed);
    var filename := LastSegment(trimmed);
    var folder := StripFinalSlash(trimmed[..|trimmed| - |filename|]);
    if folder == [] then filename else folder + "/" + filename
  }

  /** restore.js:113: the public download URL of an uploaded object. */
  function PublicUrl(bucketName: string, rawFilename: string, token: string): string
  {
    PublicUrlHead + bucketName + "/o/" + rawFilename + "?alt=media&token=" + token
  }

  // ---------------------------------------------------------------------
  // Properties

  /** Replacing the first match of a prefix removes exactly that prefix. */
  lemma ReplaceFirstPrefix(s: string, pat: string)
    requires StartsWith(s, pat)
    ensures ReplaceFirst(s, pat, "") == s[|pat|..]
  {
    assert OccursAt(s, pat, 0);
  }

  /** For a sentinel value without '/', the restore tool recovers the text
      after the tag from the sidecar path it builds (restore.js:59-61, 97). */
  lemma RawFilenameOfSentinel(docFolder: Path, datum: string)
    requires StartsWith(datum, SentinelTag) && '/' !in datum
    ensures RawFilename(BlobPath(docFolder, datum)) == datum[|SentinelTag|..]
  {
    assert BlobPath(docFolder, datum) == (docFolder + "/" + FilesFolder) + "/" + datum;
    BasenameOfJoin(docFolder + "/" + FilesFolder, datum);
    ReplaceFirstPrefix(datum, SentinelTag);
  }

  /** Stripping the tag inverts adding it: the restore tool recovers the
      URL's last path segment from the local name the backup tool gave it. */
  lemma RawFilenameInvertsLocalName(url: string, docFolder: Path)
    requires StartsWith(url, BlobUrlPrefix)
    ensures StartsWith(url, Scheme) &&
            RawFilename(BlobPath(docFolder, LocalName(url))) == LastSegment(Pathname(url))
  {
    BlobUrlIsHttps(url);
    RawFilenameOfSentinel(docFolder, LocalName(url));
  }

  /** The pathname of an https URL assembled from a host, a path and a
      query. */
  lemma PathnameOf(host: string, path: string, query: string)
    requires forall k :: 0 <= k < |host| ==> host[k] !in {'/', '?', '#'}
    requires path != [] && path[0] == '/' && '?' !in path && '#' !in path
    requires query == [] || query[0] == '?'
    ensures StartsWith(Scheme + host + path + query, Scheme)
    ensures Pathname(Scheme + host + path + query) == path
  {
    var url := Scheme + host + path + query;
    assert url[..|Scheme|] == Scheme;
    var rest := url[|Scheme|..];
    assert rest == host + (path + query);
    FirstOfAppend(host, path + query, {'/', '?', '#'});
    assert (path + query)[0] == '/';
    FirstOfUnique(path + query, {'/', '?', '#'}, 0);
    assert rest[|host|..] == path + query;
    FirstOfAppend(path, query, {'?', '#'});
    FirstOfUnique(query, {'?', '#'}, 0);
    assert (path + query)[..|path|] == path;
  }

  lemma NotInJoin(a: string, b: string, c: char)
    requires c !in a && c !in b
    ensures c !in a + b
  {
    assert forall x :: x in a + b ==> x in a || x in b;
  }

  /** A public URL built by the restore tool is recognised again as a blob
      reference by the backup tool, and maps to the same local name. */
  lemma PublicUrlLocalName(bucketName: string, raw: string, token: string)
    requires '/' !in raw && '?' !in raw && '#' !in raw
    requires '?' !in bucketName && '#' !in bucketName
    ensures IsBlobUrl(Str(PublicUrl(bucketName, raw, token)))
    ensures LocalName(PublicUrl(bucketName, raw, token)) == SentinelTag + raw
  {
    var url := PublicUrl(bucketName, raw, token);
    var dir := "/v0/b/" + bucketName + "/o";
    PublicUrlPathname(bucketName, raw, token);
    LastSegmentOfJoin(dir, raw);
  }

  /** The path of a public URL is the object path under the bucket. */
  lemma PublicUrlPathname(bucketName: string, raw: string, token: string)
    requires '/' !in raw && '?' !in raw && '#' !in raw
    requires '?' !in bucketName && '#' !in bucketName
    ensures var url := PublicUrl(bucketName, raw, token);
            StartsWith(url, BlobUrlPrefix) && StartsWith(url, Scheme) &&
            Pathname(url) == "/v0/b/" + bucketName + "/o" + "/" + raw
  {
    var path := "/v0/b/" + bucketName + "/o" + "/" + raw;
    var query := "?alt=media&token=" + token;
    PublicUrlSplits(bucketName, raw, token);
    PublicUrlIsBlobUrl(bucketName, raw, token);
    ObjectPathChars(bucketName, raw, '?');
    ObjectPathChars(bucketName, raw, '#');
    PublicHostChars();
    PathnameOf(PublicHost, path, query);
  }

  lemma PublicUrlSplits(bucketName: string, raw: string, token: string)
    ensures PublicUrl(bucketName, raw, token) ==
            Scheme + PublicHost + ("/v0/b/" + bucketName + "/o" + "/" + raw) + ("?alt=media&token=" + token)
  {
    assert "/o/" == "/o" + "/";
  }

  /** Every public URL is a blob reference. */
  lemma PublicUrlIsBlobUrl(bucketName: string, raw: string, token: string)
    ensures StartsWith(PublicUrl(bucketName, raw, token), BlobUrlPrefix)
  {
    var url := PublicUrl(bucketName, raw, token);
    var rest := "/v0/b/" + bucketName + "/o/" + raw + "?alt=media&token=" + token;
    assert url == BlobUrlPrefix + (".googleapis.com" + rest);
    assert url[..|BlobUrlPrefix|] == BlobUrlPrefix;
  }

  lemma ObjectPathChars(bucketName: string, raw: string, c: char)
    requires c != '/' && c != 'v' && c != '0' && c != 'b' && c != 'o'
    requires c !in raw && c !in bucketName
    ensures c !in "/v0/b/" + bucketName + "/o" + "/" + raw
  {
    var dir := "/v0/b/" + bucketName + "/o";
    NotInJoin("/v0/b/", bucketName, c);
    NotInJoin("/v0/b/" + bucketName, "/o", c);
    NotInJoin(dir, "/", c);
    NotInJoin(dir + "/", raw, c);
  }

  lemma PublicHostChars()
    ensures forall k :: 0 <= k < |PublicHost| ==> PublicHost[k] !in {'/', '?', '#'}
  {
  }

  /** Field-level round trip: a blob URL exported to a local name and
      restored to a public URL exports again to the same local name. */
  lemma FieldRoundTrip(url: string, docFolder: Path, bucketName: string, token: string)
    requires StartsWith(url, BlobUrlPrefix)
    requires '?' !in bucketName && '#' !in bucketName
    ensures var restored := PublicUrl(bucketName, RawFilename(BlobPath(docFolder, LocalName(url))), token);
            IsBlobUrl(Str(restored)) && LocalName(restored) == LocalName(url)
  {
    var name := LocalName(url);
    RawFilenameInvertsLocalName(url, docFolder);
    var raw := name[|SentinelTag|..];
    NotInSuffix(name, |SentinelTag|, '/');
    NotInSuffix(name, |SentinelTag|, '?');
    NotInSuffix(name, |SentinelTag|, '#');
    PublicUrlLocalName(bucketName, raw, token);
    assert SentinelTag + raw == name;
  }

  lemma NotInSuffix(s: string, k: nat, c: char)
    requires k <= |s| && c !in s
    ensures c !in s[k..]
  {
    assert forall i :: 0 <= i < |s| - k ==> s[k..][i] == s[k + i];
  }

  /** The corrected key is the decoded object path itself whenever that
      path neither starts nor ends with '/'. */
  lemma UploadKeyIsObjectPath(rawPath: string)
    requires rawPath != [] && rawPath[0] != '/' && rawPath[|rawPath| - 1] != '/'
    ensures UploadKey(rawPath) == rawPath
  {
    var trimmed := TrimTrailingSlashes(rawPath);
    assert trimmed == rawPath;
    LastSegmentSpec(rawPath);
    var filename := LastSegment(rawPath);
    var n := |rawPath| - |filename|;
    if n == 0 {
      assert rawPath[..0] == [];
      assert filename == rawPath;
    } else {
      assert rawPath[n - 1] == '/';
      var dir := rawPath[..n - 1];
      assert rawPath[..n] == dir + "/";
      assert StripFinalSlash(rawPath[..n]) == dir;
      assert dir != [] by { assert rawPath[0] != '/'; }
      assert dir + "/" + filename == rawPath;
    }
  }

  /** As written, the key is also the object path whenever the object sits
      below a folder and its basename does not occur earlier in the path. */
  lemma UploadKeyAsWrittenRejoins(raw: string, folder: string, filename: string)
    requires filename != [] && '/' !in filename
    requires forall j :: 0 <= j <= |folder| ==> !OccursAt(folder + "/" + filename, filename, j)
    ensures UploadKeyAsWritten(PlanFromPath(raw, folder + "/" + filename)) == folder + "/" + filename
  {
    var p := folder + "/" + filename;
    BasenameOfJoin(folder, filename);
    var at := |folder| + 1;
    assert p[at..] == filename;
    assert OccursAt(p, filename, at);
    IndexOfFirst(p, filename, 0, at);
    assert p[..at] == folder + "/";
    assert ReplaceFirst(p, filename, "") == folder + "/";
  }

  /** The key as written is the decoded object path exactly when the path
      has a folder and its basename occurs nowhere before the basename
      itself; otherwise the upload lands elsewhere than the object the
      returned URL names. */
  lemma UploadKeyAsWrittenIff(raw: string, rawPath: string)
    requires rawPath != [] && rawPath[|rawPath| - 1] != '/'
    ensures var f := Basename(rawPath);
            UploadKeyAsWritten(PlanFromPath(raw, rawPath)) == rawPath <==>
              '/' in rawPath && forall j :: 0 <= j < |rawPath| - |f| ==> !OccursAt(rawPath, f, j)
  {
    var f := Basename(rawPath);
    assert TrimTrailingSlashes(rawPath) == rawPath;
    LastSegmentSpec(rawPath);
    var n := |rawPath| - |f|;
    if '/' !in rawPath {
      UploadKeyAsWrittenTopLevel(raw, rawPath);
    } else if forall j :: 0 <= j < n ==> !OccursAt(rawPath, f, j) {
      assert f != rawPath by { assert '/' !in f; }
      var folder := rawPath[..n - 1];
      assert folder + "/" + f == rawPath;
      assert f != [] && '/' !in f;
      UploadKeyAsWrittenRejoins(raw, folder, f);
    } else {
      var j0 :| 0 <= j0 < n && OccursAt(rawPath, f, j0);
      UploadKeyAsWrittenEarlier(raw, rawPath, j0);
    }
  }

  /** UploadKeyAsWrittenIff when the basename also occurs earlier: the
      first occurrence is removed instead of the last, and the key comes
      out one character longer than the path. */
  lemma UploadKeyAsWrittenEarlier(raw: string, rawPath: string, j0: nat)
    requires rawPath != [] && rawPath[|rawPath| - 1] != '/'
    requires j0 + |Basename(rawPath)| < |rawPath| && OccursAt(rawPath, Basename(rawPath), j0)
    ensures |UploadKeyAsWritten(PlanFromPath(raw, rawPath))| == |rawPath| + 1
  {
    var f := Basename(rawPath);
    IndexOfFromSpec(rawPath, f, 0);
    var i := IndexOfFrom(rawPath, f, 0).value;
    var rest := ReplaceFirst(rawPath, f, "");
    assert rest == rawPath[..i] + rawPath[i + |f|..];
    assert |rest| == |rawPath| - |f| && rest[|rest| - 1] == rawPath[|rawPath| - 1];
  }

  /** The contract of IndexOfFrom pins down the first occurrence. */
  lemma {:induction false} IndexOfFirst(s: string, pat: string, from: nat, at: nat)
    requires from <= at && OccursAt(s, pat, at)
    requires forall j :: from <= j < at ==> !OccursAt(s, pat, j)
    ensures IndexOfFrom(s, pat, from) == Some(at)
    decreases at - from
  {
    if from < at {
      assert !OccursAt(s, pat, from);
      IndexOfFirst(s, pat, from + 1, at);
    }
  }

  lemma BasenameOfName(name: string)
    requires name != [] && '/' !in name
    ensures Basename(name) == name
  {
    assert name[|name| - 1] in name;
    assert TrimTrailingSlashes(name) == name;
    LastSegmentOfSuffix([], name);
    assert [] + name == name;
  }

  /** Finding, as written: an object at the top level of the bucket is
      uploaded under a key with a leading '/', which is not the object the
      returned URL names. */
  lemma UploadKeyAsWrittenTopLevel(raw: string, rawPath: string)
    requires rawPath != [] && '/' !in rawPath
    ensures UploadKeyAsWritten(PlanFromPath(raw, rawPath)) == "/" + rawPath
    ensures UploadKey(rawPath) == rawPath
  {
    BasenameOfName(rawPath);
    assert OccursAt(rawPath, rawPath, 0);
    assert ReplaceFirst(rawPath, rawPath, "") == [];
    assert rawPath[0] in rawPath && rawPath[|rawPath| - 1] in rawPath;
    UploadKeyIsObjectPath(rawPath);
  }

  /** Finding, as written: a basename that also names the folder is
      removed from the folder instead, so the key gains a leading '/'. */
  lemma UploadKeyAsWrittenRepeatedName(raw: string, name: string)
    requires name != [] && '/' !in name
    ensures UploadKeyAsWritten(PlanFromPath(raw, name + "/" + name)) == "/" + name + "/" + name
    ensures UploadKey(name + "/" + name) == name + "/" + name
  {
    var p := name + "/" + name;
    BasenameOfJoin(name, name);
    assert p[..|name|] == name;
    assert OccursAt(p, name, 0);
    assert p[|name|..] == "/" + name;
    assert ReplaceFirst(p, name, "") == "/" + name;
    assert ("/" + name)[|"/" + name| - 1] == name[|name| - 1];
    UploadKeyIsObjectPath(p);
  }

  /** Finding, as written: the basename `b` of `ab/b` is first found
      inside the folder `ab`, so the upload goes to `a/b/b`, a different
      object whether or not a leading '/' is kept. */
  lemma UploadKeyAsWrittenInnerMatch(raw: string, p: string)
    requires p == "ab/b"
    ensures UploadKeyAsWritten(PlanFromPath(raw, p)) == "a/b/b"
    ensures UploadKey(p) == p
  {
    InnerMatchBasename(p);
    InnerMatchReplace(p);
    var plan := PlanFromPath(raw, p);
    assert plan.filename == "b";
    assert plan.destination == StripFinalSlash("a/b");
    UploadKeyIsObjectPath(p);
  }

  lemma InnerMatchBasename(p: string)
    requires p == "ab/b"
    ensures Basename(p) == "b"
  {
    assert p == "ab" + "/" + "b";
    BasenameOfJoin("ab", "b");
  }

  lemma InnerMatchReplace(p: string)
    requires p == "ab/b"
    ensures ReplaceFirst(p, "b", "") == "a/b"
  {
    assert !OccursAt(p, "b", 0) by { assert p[0..1] == "a"; }
    assert OccursAt(p, "b", 1) by { assert p[1..2] == "b"; }
    assert IndexOfFrom(p, "b", 0) == Some(1);
    assert p[..1] + "" + p[2..] == "a/b";
  }

  /** Object-path round trip: for the blob URL of an object path `obj`
      (URL-encoded inside the URL, as the blob service does), the restore
      tool recovers `obj`, uploads it under `obj` and builds a URL with the
      same encoded path. */
  lemma ObjectPathRoundTrip(obj: string, docFolder: Path, bucketName: string, token: string)
    requires IsAscii(obj) && obj != [] && obj[0] != '/' && obj[|obj| - 1] != '/'
    requires '?' !in bucketName && '#' !in bucketName
    ensures var url := PublicUrl(bucketName, PercentEncode(obj), token);
            IsBlobUrl(Str(url)) &&
            PlanUpload(BlobPath(docFolder, LocalName(url))) ==
              Some(PlanFromPath(PercentEncode(obj), obj)) &&
            UploadKey(obj) == obj
  {
    var raw := PercentEncode(obj);
    var url := PublicUrl(bucketName, raw, token);
    PublicUrlLocalName(bucketName, raw, token);
    var name := LocalName(url);
    assert name[|SentinelTag|..] == raw;
    RawFilenameOfSentinel(docFolder, name);
    DecodeEncode(obj);
    UploadKeyIsObjectPath(obj);
  }
}
