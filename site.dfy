/** Two string rules of the site script (script.js): the navigation link that matches the
    current page is marked active, and a quote request needs a name, an email and a city. */
module Site {
  import opened Wrappers

  // ---------------------------------------------------------------------------------------
  // Active navigation link (`marcarActivo`)

  /** `s` ends with `suffix`. */
  predicate EndsWith(s: string, suffix: string)
  {
    |suffix| <= |s| && s[|s| - |suffix|..] == suffix
  }

  /** The last element of `path.split('/')`: everything after the last '/', or the whole
      path when it has none. */
  function LastSegment(path: string): (seg: string)
    ensures EndsWith(path, seg)
    ensures '/' !in seg
    ensures |seg| < |path| ==> path[|path| - |seg| - 1] == '/'
  {
    if |path| == 0 || path[|path| - 1] == '/' then ""
    else LastSegment(path[..|path| - 1]) + [path[|path| - 1]]
  }

  const DefaultPage: string := "index.html"

  /** The page key of a pathname: its last segment, or "index.html" when that is empty
      (the site root or a path ending in '/'). */
  function ActiveKey(pathname: string): (key: string)
    ensures key != [] && '/' !in key
    ensures EndsWith(pathname, key) || (key == DefaultPage && (pathname == [] || pathname[|pathname| - 1] == '/'))
  {
    var seg := LastSegment(pathname);
    if seg == [] then DefaultPage else seg
  }

  /** A link is marked active when its `href` attribute is present, non-empty and ends with
      the page key. The page key is never empty, so the emptiness test decides nothing. */
  predicate IsActive(href: Option<string>, pathname: string)
    ensures IsActive(href, pathname) <==> href.Some? && EndsWith(href.value, ActiveKey(pathname))
  {
    href.Some? && href.value != [] && EndsWith(href.value, ActiveKey(pathname))
  }

  /** The page key is the whole text after the last '/' of the pathname: a key taken from
      the path has no '/' and is preceded by one unless it is the whole path. */
  lemma KeyIsLastSegment(before: string, page: string)
    requires page != [] && '/' !in page
    ensures ActiveKey(before + "/" + page) == page
  {
    SegmentOfSuffix(before + "/", page);
  }

  lemma {:induction false} SegmentOfSuffix(prefix: string, page: string)
    requires |prefix| > 0 && prefix[|prefix| - 1] == '/' && '/' !in page
    ensures LastSegment(prefix + page) == page
    decreases |page|
  {
    if page == [] {
      assert prefix + page == prefix;
    } else {
      var last := page[|page| - 1];
      var init := page[..|page| - 1];
      assert (prefix + page)[..|prefix + page| - 1] == prefix + init;
      SegmentOfSuffix(prefix, init);
      assert page == init + [last];
    }
  }

  /** A link is active exactly when its href is some text followed by the page key. */
  lemma ActiveIffPrefixed(href: Option<string>, pathname: string)
    ensures IsActive(href, pathname) <==>
              href.Some? && exists pre :: pre + ActiveKey(pathname) == href.value
  {
    var key := ActiveKey(pathname);
    if href.Some? {
      var h := href.value;
      if EndsWith(h, key) {
        var pre := h[..|h| - |key|];
        assert h == pre + h[|h| - |key|..];
      }
      if exists pre :: pre + key == h {
        var pre :| pre + key == h;
        assert h[|h| - |key|..] == key;
      }
    }
  }

  /** A link whose href is exactly the current page's key is always marked active. */
  lemma OwnPageIsActive(pathname: string)
    ensures IsActive(Some(ActiveKey(pathname)), pathname)
  {
    var key := ActiveKey(pathname);
    assert key[|key| - |key|..] == key;
  }

  // ---------------------------------------------------------------------------------------
  // Quote request (`enviarCotizacion`)

  /** The characters `String.prototype.trim` removes: white space (TAB, VT, FF, the
      no-break space, the byte order mark and the Unicode space separators) and line
      terminators (LF, CR, LS, PS), as listed in sections 12.2 and 12.3 of ECMA-262. */
  predicate IsWhitespace(c: char)
  {
    c == '\t' || c == '\U{000B}' || c == '\U{000C}' || c == ' ' || c == '\U{00A0}'
    || c == '\U{1680}' || ('\U{2000}' <= c <= '\U{200A}') || c == '\U{202F}'
    || c == '\U{205F}' || c == '\U{3000}' || c == '\U{FEFF}'
    || c == '\n' || c == '\r' || c == '\U{2028}' || c == '\U{2029}'
  }

  /** `s` without its leading white space. */
  function TrimStart(s: string): (r: string)
    ensures |r| <= |s| && r == s[|s| - |r|..]
    ensures r == [] || !IsWhitespace(r[0])
  {
    if |s| > 0 && IsWhitespace(s[0]) then TrimStart(s[1..]) else s
  }

  /** Everything `TrimStart` removes is white space. */
  lemma {:induction false} LeadingRemoved(s: string)
    ensures forall k :: 0 <= k < |s| - |TrimStart(s)| ==> IsWhitespace(s[k])
  {
    if |s| > 0 && IsWhitespace(s[0]) {
      LeadingRemoved(s[1..]);
      forall k | 1 <= k < |s| - |TrimStart(s)| ensures IsWhitespace(s[k]) {
        assert s[k] == s[1..][k - 1];
      }
    }
  }

  /** `s` without its trailing white space. */
  function TrimEnd(s: string): (r: string)
    ensures |r| <= |s| && r == s[..|r|]
    ensures r == [] || !IsWhitespace(r[|r| - 1])
  {
    if |s| > 0 && IsWhitespace(s[|s| - 1]) then TrimEnd(s[..|s| - 1]) else s
  }

  /** Everything `TrimEnd` removes is white space. */
  lemma {:induction false} TrailingRemoved(s: string)
    ensures forall k :: |TrimEnd(s)| <= k < |s| ==> IsWhitespace(s[k])
  {
    if |s| > 0 && IsWhitespace(s[|s| - 1]) {
      TrailingRemoved(s[..|s| - 1]);
    }
  }

  /** `s.trim()`. */
  function Trim(s: string): (r: string)
    ensures r == [] || (!IsWhitespace(r[0]) && !IsWhitespace(r[|r| - 1]))
  {
    TrimEnd(TrimStart(s))
  }

  /** Trimming leaves a contiguous piece of the input, and everything cut off is white space. */
  lemma TrimIsInfix(s: string)
    ensures var i, r := |s| - |TrimStart(s)|, Trim(s);
            i + |r| <= |s| && r == s[i..i + |r|]
            && (forall k :: 0 <= k < i ==> IsWhitespace(s[k]))
            && (forall k :: i + |r| <= k < |s| ==> IsWhitespace(s[k]))
  {
    var t := TrimStart(s);
    var i := |s| - |t|;
    LeadingRemoved(s);
    TrailingRemoved(t);
    SliceOfSuffix(s, i, |TrimEnd(t)|);
    WhitespaceTail(s, i, |TrimEnd(t)|);
  }

  lemma SliceOfSuffix(s: string, i: nat, m: nat)
    requires i + m <= |s|
    ensures s[i..][..m] == s[i..i + m]
  {
  }

  lemma WhitespaceTail(s: string, i: nat, m: nat)
    requires i + m <= |s|
    requires forall k :: m <= k < |s[i..]| ==> IsWhitespace(s[i..][k])
    ensures forall k :: i + m <= k < |s| ==> IsWhitespace(s[k])
  {
    forall k | i + m <= k < |s| ensures IsWhitespace(s[k]) {
      assert s[k] == s[i..][k - i];
    }
  }

  /** A field is empty after trimming exactly when it is all white space. */
  lemma TrimEmptyIff(s: string)
    ensures Trim(s) == [] <==> forall k :: 0 <= k < |s| ==> IsWhitespace(s[k])
  {
    if Trim(s) == [] {
      TrimIsInfix(s);
    }
  }

  /** Trimming twice is trimming once. */
  lemma TrimIdempotent(s: string)
    ensures Trim(Trim(s)) == Trim(s)
  {
    var r := Trim(s);
    assert TrimStart(r) == r;
    assert TrimEnd(r) == r;
  }

  const MissingFields: string := "⚠️ Por favor completa: Nombre, Email y Ciudad."

  /** The acknowledgement shown for an accepted request. */
  function Acknowledgement(nombre: string, email: string): string
  {
    "✅ Gracias, " + nombre + ". Te contactaremos a " + email + "."
  }

  /** A field counts as filled when the input exists and is not empty after trimming. */
  predicate Filled(field: Option<string>)
  {
    field.Some? && Trim(field.value) != []
  }

  /** The quote form. A field is `None` when the page has no such input. */
  function SubmitQuote(nombre: Option<string>, email: Option<string>, ciudad: Option<string>)
    : (r: Result<string, string>)
    ensures r.Failure? <==> !(Filled(nombre) && Filled(email) && Filled(ciudad))
    ensures r.Failure? ==> r.error == MissingFields
    ensures r.Success? ==> r.value == Acknowledgement(Trim(nombre.value), Trim(email.value))
  {
    if !Filled(nombre) || !Filled(email) || !Filled(ciudad) then Failure(MissingFields)
    else Success(Acknowledgement(Trim(nombre.value), Trim(email.value)))
  }

  /** A request is refused exactly when some field is missing or holds only white space. */
  lemma QuoteRejectedIff(nombre: Option<string>, email: Option<string>, ciudad: Option<string>)
    ensures SubmitQuote(nombre, email, ciudad).Failure? <==>
              (nombre.None? || forall k :: 0 <= k < |nombre.value| ==> IsWhitespace(nombre.value[k]))
              || (email.None? || forall k :: 0 <= k < |email.value| ==> IsWhitespace(email.value[k]))
              || (ciudad.None? || forall k :: 0 <= k < |ciudad.value| ==> IsWhitespace(ciudad.value[k]))
  {
    if nombre.Some? { TrimEmptyIff(nombre.value); }
    if email.Some? { TrimEmptyIff(email.value); }
    if ciudad.Some? { TrimEmptyIff(ciudad.value); }
  }
}
