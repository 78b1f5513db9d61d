/**
 * How component images are named in the object store, how the stored URL is
 * built from an object name, and how `url.Parse` reads an object name back
 * from a stored URL.
 */
module ObjectNames {
  import opened Wrappers
  import GoStrings

  /** The folder every component image is uploaded under. */
  const ImagePathPrefix := "Components/"

  /** The object an uploaded file is stored as: the prefix and the file's base name. */
  function ObjectName(filename: string): (name: string)
    ensures GoStrings.HasPrefix(name, ImagePathPrefix)
    ensures GoStrings.TrimPrefix(name, ImagePathPrefix) == GoStrings.FilepathBase(filename)
  {
    GoStrings.TrimPrefixOfConcat(ImagePathPrefix, GoStrings.FilepathBase(filename));
    ImagePathPrefix + GoStrings.FilepathBase(filename)
  }

  /** Uploading a file under its own base name stores it as the same object. */
  lemma ObjectNameOfBase(filename: string)
    ensures ObjectName(GoStrings.FilepathBase(filename)) == ObjectName(filename)
  {
    GoStrings.FilepathBaseIdempotent(filename);
  }

  /** The URL stored in the component row: `http://<endpoint>/<bucket>/<object>`, the name written as it is. */
  function ImageUrl(endpoint: string, bucket: string, objectName: string): (u: string)
    ensures GoStrings.HasPrefix(u, "http://" + endpoint + "/" + bucket + "/")
    ensures GoStrings.TrimPrefix(u, "http://" + endpoint + "/" + bucket + "/") == objectName
  {
    GoStrings.TrimPrefixOfConcat("http://" + endpoint + "/" + bucket + "/", objectName);
    "http://" + endpoint + "/" + bucket + "/" + objectName
  }

  /** Index of the first `c` in `s`, or `|s|` when there is none. */
  function FirstIndex(s: string, c: char): (i: nat)
    ensures i <= |s|
    ensures forall j :: 0 <= j < i ==> s[j] != c
    ensures i < |s| ==> s[i] == c
  {
    if |s| == 0 || s[0] == c then 0 else 1 + FirstIndex(s[1..], c)
  }

  /** The part of `s` before the first `c` (all of `s` when there is none), as `strings.Cut` returns it. */
  function CutBefore(s: string, c: char): string
  {
    s[..FirstIndex(s, c)]
  }

  /** The part of `s` after the first `c` (empty when there is none), as `strings.Cut` returns it. */
  function CutAfter(s: string, c: char): string
  {
    if FirstIndex(s, c) < |s| then s[FirstIndex(s, c) + 1..] else ""
  }

  /** A control byte, which `url.Parse` refuses anywhere before the fragment. */
  predicate IsCtl(c: char)
  {
    c < ' ' || c as int == 0x7f
  }

  predicate IsHex(c: char)
  {
    ('0' <= c <= '9') || ('a' <= c <= 'f') || ('A' <= c <= 'F')
  }

  function HexValue(c: char): (v: nat)
    requires IsHex(c)
    ensures v < 16
  {
    if c <= '9' then c as int - '0' as int
    else if c <= 'F' then c as int - 'A' as int + 10
    else c as int - 'a' as int + 10
  }

  /**
   * Percent-decoding of a URL path or fragment: `%XY` with two hex digits stands
   * for the byte 0xXY, and any other '%' is an error. '+' is kept as it is.
   */
  function Unescape(s: string): (r: Option<string>)
    ensures r.Some? ==> |r.value| <= |s|
    ensures r.Some? && |r.value| == |s| ==> r.value == s
    decreases |s|
  {
    if s == [] then Some([])
    else if s[0] == '%' then
      if |s| >= 3 && IsHex(s[1]) && IsHex(s[2]) then
        match Unescape(s[3..])
        case None => None
        case Some(t) => Some([(16 * HexValue(s[1]) + HexValue(s[2])) as char] + t)
      else None
    else
      match Unescape(s[1..])
      case None => None
      case Some(t) =>
        assert |t| == |s| - 1 ==> [s[0]] + t == s by {
          if |t| == |s| - 1 { assert t == s[1..]; }
        }
        Some([s[0]] + t)
  }

  /** Text without '%' decodes to itself, in front of whatever the rest decodes to. */
  lemma {:induction false} UnescapePlain(a: string, b: string)
    requires '%' !in a
    ensures Unescape(a + b) == (if Unescape(b).Some? then Some(a + Unescape(b).value) else None)
  {
    if a == [] {
      assert a + b == b;
      if Unescape(b).Some? {
        assert a + Unescape(b).value == Unescape(b).value;
      }
    } else {
      assert (a + b)[0] == a[0];
      assert (a + b)[1..] == a[1..] + b;
      assert '%' !in a[1..] by {
        forall i | 0 <= i < |a[1..]| ensures a[1..][i] != '%' { assert a[1..][i] == a[i + 1]; }
      }
      UnescapePlain(a[1..], b);
      if Unescape(b).Some? {
        assert [a[0]] + (a[1..] + Unescape(b).value) == a + Unescape(b).value;
      }
    }
  }

  /**
   * The path of what is left of a URL once fragment and query are cut off: after
   * `http://` the host runs to the first '/' and the path is the rest; a string
   * without that scheme is all path. The path is percent-decoded.
   */
  function PathOfRest(rest: string): (r: Option<string>)
    ensures !GoStrings.HasPrefix(rest, "http://") ==> r == Unescape(rest)
    ensures GoStrings.HasPrefix(rest, "http://") && '/' !in rest[|"http://"|..] ==> r == Some("")
  {
    if GoStrings.HasPrefix(rest, "http://") then
      var authority := rest[|"http://"|..];
      Unescape(authority[FirstIndex(authority, '/')..])
    else Unescape(rest)
  }

  /**
   * The `Path` of `url.Parse(u)`, or None when `url.Parse` reports an error. The
   * fragment is cut off at the first '#' and must decode; a control byte before it
   * is an error; the query is cut off at the first '?'. Host validation is not
   * part of this function.
   */
  function ParsedPath(u: string): (r: Option<string>)
    ensures r.Some? ==> Unescape(CutAfter(u, '#')).Some?
    ensures r.Some? ==> r == PathOfRest(CutBefore(CutBefore(u, '#'), '?'))
  {
    var main := CutBefore(u, '#');
    if (exists i :: 0 <= i < |main| && IsCtl(main[i])) || Unescape(CutAfter(u, '#')).None? then None
    else PathOfRest(CutBefore(main, '?'))
  }

  /** The object name `DeleteComponent` and `UploadComponentImage` remove for a stored URL, or None when the URL does not parse. */
  function ObjectNameFromUrl(bucket: string, u: string): (r: Option<string>)
    ensures r.Some? <==> ParsedPath(u).Some?
    ensures r.Some? && GoStrings.HasPrefix(ParsedPath(u).value, "/" + bucket + "/") ==>
      "/" + bucket + "/" + r.value == ParsedPath(u).value
    ensures r.Some? && !GoStrings.HasPrefix(ParsedPath(u).value, "/" + bucket + "/") ==> r.value == ParsedPath(u).value
  {
    match ParsedPath(u)
    case None => None
    case Some(p) => Some(GoStrings.TrimPrefix(p, "/" + bucket + "/"))
  }

  /** Text that `url.Parse` neither cuts nor decodes nor refuses: no '?', '#', '%' or control byte. */
  predicate PlainUrlText(s: string)
  {
    forall i :: 0 <= i < |s| ==> s[i] != '?' && s[i] != '#' && s[i] != '%' && !IsCtl(s[i])
  }

  /** Text with no fragment and no control byte. */
  predicate NoFragment(s: string)
  {
    forall i :: 0 <= i < |s| ==> s[i] != '#' && !IsCtl(s[i])
  }

  lemma NoFragmentConcat(a: string, b: string)
    requires NoFragment(a) && NoFragment(b)
    ensures NoFragment(a + b)
  {
    forall i | 0 <= i < |a + b| ensures (a + b)[i] != '#' && !IsCtl((a + b)[i]) {
      if i >= |a| { assert (a + b)[i] == b[i - |a|]; } else { assert (a + b)[i] == a[i]; }
    }
  }

  /** Without a fragment or a control byte, the parse depends only on the text before the query. */
  lemma ParsedPathNoFragment(u: string)
    requires NoFragment(u)
    ensures ParsedPath(u) == PathOfRest(CutBefore(u, '?'))
  {
    assert FirstIndex(u, '#') == |u|;
    assert CutBefore(u, '#') == u;
    assert CutAfter(u, '#') == "";
  }

  /** After `http://`, the host runs to the first '/' and the path is the rest. */
  lemma PathOfHttp(endpoint: string, path: string)
    requires '/' !in endpoint
    requires |path| > 0 && path[0] == '/'
    ensures PathOfRest("http://" + endpoint + path) == Unescape(path)
  {
    var rest := endpoint + path;
    assert "http://" + endpoint + path == "http://" + rest;
    GoStrings.TrimPrefixOfConcat("http://", rest);
    assert FirstIndex(rest, '/') == |endpoint| by {
      forall j | 0 <= j < |endpoint| ensures rest[j] != '/' {
        assert rest[j] == endpoint[j];
      }
      assert rest[|endpoint|] == path[0];
    }
    assert rest[|endpoint|..] == path;
  }

  /**
   * Reading back a URL of the form `http://<endpoint>/<path>` whose path has no
   * query, fragment or control byte: the parse yields the decoded path.
   */
  lemma ParsedPathOfHttp(endpoint: string, path: string)
    requires PlainUrlText(endpoint) && '/' !in endpoint
    requires forall i :: 0 <= i < |path| ==> path[i] != '?' && path[i] != '#' && !IsCtl(path[i])
    requires |path| > 0 && path[0] == '/'
    ensures ParsedPath("http://" + endpoint + path) == Unescape(path)
  {
    var u := "http://" + endpoint + path;
    assert '?' !in endpoint by {
      forall i | 0 <= i < |endpoint| ensures endpoint[i] != '?' { }
    }
    assert '?' !in path by {
      forall i | 0 <= i < |path| ensures path[i] != '?' { }
    }
    assert NoFragment("http://");
    NoFragmentConcat("http://", endpoint);
    NoFragmentConcat("http://" + endpoint, path);
    ParsedPathNoFragment(u);
    NoQueryInHttp(endpoint, path);
    FirstIndexAbsent(u, '?');
    assert CutBefore(u, '?') == u;
    PathOfHttp(endpoint, path);
  }

  lemma NoQueryInHttp(endpoint: string, path: string)
    requires '?' !in endpoint && '?' !in path
    ensures '?' !in "http://" + endpoint + path
  {
    var u := "http://" + endpoint + path;
    forall i | 0 <= i < |u| ensures u[i] != '?' {
      if i >= 7 + |endpoint| {
        assert u[i] == path[i - 7 - |endpoint|];
      } else if i >= 7 {
        assert u[i] == endpoint[i - 7];
      }
    }
  }

  lemma FirstIndexAbsent(s: string, c: char)
    requires c !in s
    ensures FirstIndex(s, c) == |s|
  {
  }

  /** A name free of '?', '#', '%' and control bytes is read back from the URL built for it. */
  lemma ObjectNameRoundTrip(endpoint: string, bucket: string, objectName: string)
    requires PlainUrlText(endpoint) && '/' !in endpoint
    requires PlainUrlText(bucket) && PlainUrlText(objectName)
    ensures ObjectNameFromUrl(bucket, ImageUrl(endpoint, bucket, objectName)) == Some(objectName)
  {
    var prefix := "/" + bucket + "/";
    var path := prefix + objectName;
    assert ImageUrl(endpoint, bucket, objectName) == "http://" + endpoint + path;
    forall i | 0 <= i < |path| ensures path[i] != '?' && path[i] != '#' && path[i] != '%' && !IsCtl(path[i]) {
      if i >= |prefix| {
        assert path[i] == objectName[i - |prefix|];
      } else if 1 <= i < 1 + |bucket| {
        assert path[i] == bucket[i - 1];
      }
    }
    ParsedPathOfHttp(endpoint, path);
    UnescapePlain(path, []);
    assert path + [] == path;
    GoStrings.TrimPrefixOfConcat(prefix, objectName);
  }

  /** An uploaded file whose base name is free of '?', '#', '%' and control bytes is read back as the object it was stored as. */
  lemma UploadedImageRoundTrip(endpoint: string, bucket: string, filename: string)
    requires PlainUrlText(endpoint) && '/' !in endpoint && PlainUrlText(bucket)
    requires PlainUrlText(GoStrings.FilepathBase(filename))
    ensures ObjectNameFromUrl(bucket, ImageUrl(endpoint, bucket, ObjectName(filename))) == Some(ObjectName(filename))
  {
    var base := GoStrings.FilepathBase(filename);
    var name := ObjectName(filename);
    assert name == ImagePathPrefix + base;
    forall i | 0 <= i < |name| ensures name[i] != '?' && name[i] != '#' && name[i] != '%' && !IsCtl(name[i]) {
      if i >= |ImagePathPrefix| {
        assert name[i] == base[i - |ImagePathPrefix|];
      }
    }
    ObjectNameRoundTrip(endpoint, bucket, name);
  }

  /** The first `c` of `a + [c] + b` is the one after `a` when `a` holds none. */
  lemma FirstIndexAt(a: string, c: char, b: string)
    requires c !in a
    ensures FirstIndex(a + [c] + b, c) == |a|
  {
    assert (a + [c] + b)[|a|] == c;
  }

  /**
   * Reading back a URL whose path is followed by a query: the query is cut off
   * before the path is decoded.
   */
  lemma ParsedPathWithQuery(endpoint: string, path: string, query: string)
    requires PlainUrlText(endpoint) && '/' !in endpoint
    requires PlainUrlText(path) && |path| > 0 && path[0] == '/'
    requires NoFragment(query)
    ensures ParsedPath("http://" + endpoint + path + "?" + query) == Unescape(path)
  {
    var a := "http://" + endpoint + path;
    assert NoFragment("http://") && NoFragment("?");
    NoFragmentConcat("http://", endpoint);
    NoFragmentConcat("http://" + endpoint, path);
    NoFragmentConcat(a, "?");
    NoFragmentConcat(a + "?", query);
    ParsedPathNoFragment(a + "?" + query);
    assert '?' !in endpoint by {
      forall i | 0 <= i < |endpoint| ensures endpoint[i] != '?' { }
    }
    assert '?' !in path by {
      forall i | 0 <= i < |path| ensures path[i] != '?' { }
    }
    NoQueryInHttp(endpoint, path);
    FirstIndexAt(a, '?', query);
    assert a + "?" + query == a + ['?'] + query;
    assert CutBefore(a + "?" + query, '?') == a;
    PathOfHttp(endpoint, path);
  }

  lemma PlainConcat(a: string, b: string)
    requires PlainUrlText(a) && PlainUrlText(b)
    ensures PlainUrlText(a + b)
  {
    forall i | 0 <= i < |a + b|
      ensures (a + b)[i] != '?' && (a + b)[i] != '#' && (a + b)[i] != '%' && !IsCtl((a + b)[i])
    {
      if i >= |a| { assert (a + b)[i] == b[i - |a|]; } else { assert (a + b)[i] == a[i]; }
    }
  }

  /** A '?' in a stored object name cuts the name read back from its URL at the '?'. */
  lemma QueryCutsName(endpoint: string, bucket: string, stem: string, query: string)
    requires PlainUrlText(endpoint) && '/' !in endpoint && PlainUrlText(bucket)
    requires PlainUrlText(stem) && NoFragment(query)
    ensures ObjectNameFromUrl(bucket, ImageUrl(endpoint, bucket, ImagePathPrefix + stem + "?" + query))
      == Some(ImagePathPrefix + stem)
  {
    var prefix := "/" + bucket + "/";
    var kept := ImagePathPrefix + stem;
    var path := prefix + kept;
    assert PlainUrlText("/") && PlainUrlText(ImagePathPrefix);
    PlainConcat("/", bucket);
    PlainConcat("/" + bucket, "/");
    PlainConcat(ImagePathPrefix, stem);
    PlainConcat(prefix, kept);
    assert ImageUrl(endpoint, bucket, kept + "?" + query) == "http://" + endpoint + path + "?" + query;
    ParsedPathWithQuery(endpoint, path, query);
    UnescapePlain(path, []);
    assert path + [] == path;
    GoStrings.TrimPrefixOfConcat(prefix, kept);
  }

  /**
   * As written, a '?' in the uploaded file's name cuts the name read back from the
   * stored URL at the '?': "a?b.png" is stored as "Components/a?b.png" and read
   * back as "Components/a", so a later removal targets another object.
   */
  lemma QueryInFileNameCutsName(endpoint: string, bucket: string, stem: string, rest: string)
    requires PlainUrlText(endpoint) && '/' !in endpoint && PlainUrlText(bucket)
    requires PlainUrlText(stem) && '/' !in stem && NoFragment(rest) && '/' !in rest
    ensures ObjectName(stem + "?" + rest) == ImagePathPrefix + stem + "?" + rest
    ensures ObjectNameFromUrl(bucket, ImageUrl(endpoint, bucket, ObjectName(stem + "?" + rest)))
      == Some(ImagePathPrefix + stem)
  {
    var f := stem + "?" + rest;
    assert '/' !in f by {
      forall i | 0 <= i < |f| ensures f[i] != '/' {
        if i < |stem| { assert f[i] == stem[i]; }
        else if i > |stem| { assert f[i] == rest[i - |stem| - 1]; }
      }
    }
    GoStrings.BaseOfPlainName(f);
    assert ImagePathPrefix + f == ImagePathPrefix + stem + "?" + rest;
    QueryCutsName(endpoint, bucket, stem, rest);
  }

  /** The characters the corrected URL writes percent-encoded: '%', '?', '#' and control bytes. */
  predicate NeedsEscape(c: char)
  {
    c == '%' || c == '?' || c == '#' || IsCtl(c)
  }

  function HexDigit(n: nat): (c: char)
    requires n < 16
    ensures IsHex(c) && HexValue(c) == n
  {
    if n < 10 then ('0' as int + n) as char else ('A' as int + n - 10) as char
  }

  /** One character as the corrected URL writes it. */
  function EscapeChar(c: char): (e: string)
    ensures forall i :: 0 <= i < |e| ==> e[i] != '?' && e[i] != '#' && !IsCtl(e[i])
  {
    if NeedsEscape(c) then ['%', HexDigit(c as int / 16), HexDigit(c as int % 16)] else [c]
  }

  /** A name with every character that `url.Parse` would cut, decode or refuse percent-encoded. */
  function Escape(s: string): (e: string)
    ensures forall i :: 0 <= i < |e| ==> e[i] != '?' && e[i] != '#' && !IsCtl(e[i])
  {
    if s == [] then [] else EscapeChar(s[0]) + Escape(s[1..])
  }

  /** Decoding an escaped name gives the name back. */
  lemma {:induction false} UnescapeEscape(s: string)
    ensures Unescape(Escape(s)) == Some(s)
  {
    if s != [] {
      var c := s[0];
      var tail := Escape(s[1..]);
      UnescapeEscape(s[1..]);
      var e := Escape(s);
      assert e == EscapeChar(c) + tail;
      if NeedsEscape(c) {
        var hi, lo := HexDigit(c as int / 16), HexDigit(c as int % 16);
        assert e[0] == '%' && e[1] == hi && e[2] == lo;
        assert e[3..] == tail;
        assert (16 * HexValue(hi) + HexValue(lo)) as char == c;
        assert [c] + s[1..] == s;
      } else {
        assert e[0] == c && c != '%';
        assert e[1..] == tail;
        assert [c] + s[1..] == s;
      }
    }
  }

  /** The URL as evidently intended: the object name percent-encoded where `url.Parse` would otherwise read it differently. */
  function EscapedImageUrl(endpoint: string, bucket: string, objectName: string): (u: string)
    ensures u == ImageUrl(endpoint, bucket, Escape(objectName))
    ensures GoStrings.TrimPrefix(u, "http://" + endpoint + "/" + bucket + "/") == Escape(objectName)
  {
    "http://" + endpoint + "/" + bucket + "/" + Escape(objectName)
  }

  /** A name with nothing to encode is written as it is. */
  lemma {:induction false} EscapePlain(s: string)
    requires PlainUrlText(s)
    ensures Escape(s) == s
  {
    if s != [] {
      assert PlainUrlText(s[1..]) by {
        forall i | 0 <= i < |s[1..]|
          ensures s[1..][i] != '?' && s[1..][i] != '#' && s[1..][i] != '%' && !IsCtl(s[1..][i])
        {
          assert s[1..][i] == s[i + 1];
        }
      }
      EscapePlain(s[1..]);
      assert !NeedsEscape(s[0]);
      assert [s[0]] + s[1..] == s;
    }
  }

  /** For a name `url.Parse` already reads back, the corrected URL is the URL the program stores. */
  lemma EscapedUrlOfPlainName(endpoint: string, bucket: string, objectName: string)
    requires PlainUrlText(objectName)
    ensures EscapedImageUrl(endpoint, bucket, objectName) == ImageUrl(endpoint, bucket, objectName)
  {
    EscapePlain(objectName);
  }

  /** The path `/<bucket>/<e>` of a plain bucket and a name with no '?', '#' or control byte. */
  lemma BucketPathShape(bucket: string, e: string)
    requires PlainUrlText(bucket)
    requires forall i :: 0 <= i < |e| ==> e[i] != '?' && e[i] != '#' && !IsCtl(e[i])
    ensures '%' !in "/" + bucket + "/"
    ensures var path := "/" + bucket + "/" + e;
      forall i :: 0 <= i < |path| ==> path[i] != '?' && path[i] != '#' && !IsCtl(path[i])
  {
    var prefix := "/" + bucket + "/";
    var path := prefix + e;
    assert '%' !in prefix by {
      forall i | 0 <= i < |prefix| ensures prefix[i] != '%' {
        if 1 <= i < 1 + |bucket| { assert prefix[i] == bucket[i - 1]; }
      }
    }
    forall i | 0 <= i < |path| ensures path[i] != '?' && path[i] != '#' && !IsCtl(path[i]) {
      if i >= |prefix| {
        assert path[i] == e[i - |prefix|];
      } else if 1 <= i < 1 + |bucket| {
        assert path[i] == bucket[i - 1];
      }
    }
  }

  /** The escaped path `/<bucket>/<Escape(name)>` decodes to `/<bucket>/<name>`. */
  lemma UnescapeBucketPath(bucket: string, name: string)
    requires PlainUrlText(bucket)
    ensures Unescape("/" + bucket + "/" + Escape(name)) == Some("/" + bucket + "/" + name)
  {
    BucketPathShape(bucket, Escape(name));
    UnescapeEscape(name);
    UnescapePlain("/" + bucket + "/", Escape(name));
  }

  /** The corrected URL is the host followed by the escaped path. */
  lemma EscapedUrlSplit(endpoint: string, bucket: string, name: string)
    ensures EscapedImageUrl(endpoint, bucket, name) == "http://" + endpoint + ("/" + bucket + "/" + Escape(name))
  {
  }

  /** With the name encoded, every uploaded file is read back as the object it was stored as. */
  lemma EscapedImageRoundTrip(endpoint: string, bucket: string, filename: string)
    requires PlainUrlText(endpoint) && '/' !in endpoint && PlainUrlText(bucket)
    ensures ObjectNameFromUrl(bucket, EscapedImageUrl(endpoint, bucket, ObjectName(filename))) == Some(ObjectName(filename))
  {
    var name := ObjectName(filename);
    var prefix := "/" + bucket + "/";
    EscapedUrlSplit(endpoint, bucket, name);
    BucketPathShape(bucket, Escape(name));
    ParsedPathOfHttp(endpoint, prefix + Escape(name));
    UnescapeBucketPath(bucket, name);
    GoStrings.TrimPrefixOfConcat(prefix, name);
  }
}
