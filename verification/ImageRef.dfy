/** Image references: the parser, a printer for what it returns, and when they agree. */
module ImageRef {
  import opened Wrappers

  const DOCKER_HUB := "docker.io"
  const HUB_REGISTRY := "registry-1.docker.io"
  const LOCALHOST := "localhost"
  const LIBRARY := "library/"
  const LATEST := "latest"

  datatype ImageReference = ImageReference(registry: string, repository: string, reference: string, isDigest: bool)

  function IndexOf(s: string, c: char): (r: Option<nat>)
    ensures r.None? <==> c !in s
    ensures r.Some? ==> r.value < |s| && s[r.value] == c && forall j | 0 <= j < r.value :: s[j] != c
  {
    if s == [] then None
    else if s[0] == c then Some(0)
    else
      match IndexOf(s[1..], c)
      case None => None
      case Some(i) => Some(i + 1)
  }

  function LastIndexOf(s: string, c: char): (r: Option<nat>)
    ensures r.None? <==> c !in s
    ensures r.Some? ==> r.value < |s| && s[r.value] == c && forall j | r.value < j < |s| :: s[j] != c
  {
    if s == [] then None
    else if s[|s| - 1] == c then Some(|s| - 1)
    else
      match LastIndexOf(s[..|s| - 1], c)
      case None => assert s == s[..|s| - 1] + [s[|s| - 1]]; None
      case Some(i) => Some(i)
  }

  predicate LooksLikeHost(host: string) { '.' in host || ':' in host || host == LOCALHOST }

  /** The registry, and what follows it. */
  function SplitRegistry(s: string): (string, string) {
    match IndexOf(s, '/')
    case None => (DOCKER_HUB, LIBRARY + s)
    case Some(i) => if LooksLikeHost(s[..i]) then (s[..i], s[i + 1..]) else (DOCKER_HUB, s)
  }

  /** Repository, tag or digest, and whether it is a digest. */
  function SplitReference(rest: string): (string, string, bool) {
    match LastIndexOf(rest, '@')
    case Some(at) => (rest[..at], rest[at + 1..], true)
    case None =>
      match LastIndexOf(rest, ':')
      case Some(colon) =>
        if '/' in rest[..colon] then (rest[..colon], rest[colon + 1..], false) else (rest, LATEST, false)
      case None => (rest, LATEST, false)
  }

  function Parse(s: string): ImageReference {
    var (host, rest) := SplitRegistry(s);
    var (repository, reference, isDigest) := SplitReference(rest);
    ImageReference(if host == DOCKER_HUB then HUB_REGISTRY else host, repository, reference, isDigest)
  }

  function Print(r: ImageReference): string {
    r.registry + ['/'] + (r.repository + [if r.isDigest then '@' else ':'] + r.reference)
  }

  // ------------------------------------------------------------- the halves

  ghost predicate IsRegistry(registry: string) {
    '/' !in registry && LooksLikeHost(registry) && registry != DOCKER_HUB
  }

  lemma Names()
    ensures IsRegistry(HUB_REGISTRY) && '/' in LIBRARY && ':' !in LATEST && '@' !in LATEST && ':' !in LIBRARY
  {
    var hub, localhost, library := HUB_REGISTRY, LOCALHOST, LIBRARY;
    assert hub[10] == '.';
    assert |hub| == 20 && |DOCKER_HUB| == 9;
    assert library[7] == '/';
  }

  lemma RegistryIsFound(registry: string, rest: string)
    requires '/' !in registry && LooksLikeHost(registry)
    ensures SplitRegistry(registry + ['/'] + rest) == (registry, rest)
  {
    var s := registry + ['/'] + rest;
    assert s[..|registry|] == registry;
    assert s[|registry|] == '/' && forall j | 0 <= j < |registry| :: s[j] == registry[j];
    assert s[|registry| + 1..] == rest;
  }

  lemma DigestIsFound(repository: string, digest: string)
    requires '@' !in digest
    ensures SplitReference(repository + ['@'] + digest) == (repository, digest, true)
  {
    var rest := repository + ['@'] + digest;
    assert rest[|repository| + 1..] == digest;
    assert rest[|repository|] == '@' && forall j | |repository| < j < |rest| :: rest[j] == digest[j - |repository| - 1];
    assert rest[..|repository|] == repository;
  }

  /** A tag is found behind a repository with a slash; behind one without, it is taken for part of the name. */
  lemma TagIsFoundIff(repository: string, tag: string)
    requires '@' !in repository && '@' !in tag && ':' !in tag
    ensures SplitReference(repository + [':'] + tag) ==
      if '/' in repository then (repository, tag, false) else (repository + [':'] + tag, LATEST, false)
  {
    var rest := repository + [':'] + tag;
    assert rest[|repository| + 1..] == tag;
    assert rest[|repository|] == ':' && forall j | |repository| < j < |rest| :: rest[j] == tag[j - |repository| - 1];
    assert rest[..|repository|] == repository;
  }

  // ----------------------------------------------------------- the theorems

  /** What the parser can return. */
  ghost predicate Parsed(r: ImageReference) {
    && IsRegistry(r.registry)
    && '@' !in r.reference
    && (!r.isDigest ==> '@' !in r.repository && ':' !in r.reference)
  }

  lemma ParseReturnsParsed(s: string)
    ensures Parsed(Parse(s))
  {
    Names();
    var (host, rest) := SplitRegistry(s);
    var colon := LastIndexOf(rest, ':');
    if LastIndexOf(rest, '@').None? && colon.Some? {
      assert rest == rest[..colon.value] + rest[colon.value..];
      assert rest == rest[..colon.value + 1] + rest[colon.value + 1..];
    }
  }

  lemma PrintedOnce(r: ImageReference)
    requires Parsed(r)
    ensures Parse(Print(r)) == r <==> r.isDigest || '/' in r.repository
  {
    var rest := r.repository + [if r.isDigest then '@' else ':'] + r.reference;
    RegistryIsFound(r.registry, rest);
    if r.isDigest {
      DigestIsFound(r.repository, r.reference);
    } else {
      TagIsFoundIff(r.repository, r.reference);
      assert |rest| > |r.repository|;
    }
  }

  /** Every reference that survives printing and parsing, and no other. */
  lemma PrintedReferenceIsParsedIff(r: ImageReference)
    ensures Parse(Print(r)) == r <==> Parsed(r) && (r.isDigest || '/' in r.repository)
  {
    if Parse(Print(r)) == r {
      ParseReturnsParsed(Print(r));
    }
    if Parsed(r) {
      PrintedOnce(r);
    }
  }

  /** An explicit registry followed by a name with neither slash nor digest. */
  ghost predicate BareName(s: string) {
    match IndexOf(s, '/')
    case None => false
    case Some(i) => LooksLikeHost(s[..i]) && '/' !in s[i + 1..] && '@' !in s[i + 1..]
  }

  lemma BareNameHasNoSlash(s: string)
    ensures BareName(s) <==> !Parse(s).isDigest && '/' !in Parse(s).repository
  {
    Names();
    var (host, rest) := SplitRegistry(s);
    var colon := LastIndexOf(rest, ':');
    if colon.Some? {
      assert rest == rest[..colon.value] + rest[colon.value..];
    }
    match IndexOf(s, '/')
    case None =>
      assert rest[..8] == LIBRARY;
      assert rest[7] == '/';
    case Some(i) =>
      assert s[i] == '/';
  }

  /** The normal form law: parsing a reference again after printing gives the same four fields for every text except
      a registry followed by a bare name. */
  lemma ParseIsNormalFormIff(s: string)
    ensures Parse(Print(Parse(s))) == Parse(s) <==> !BareName(s)
  {
    ParseReturnsParsed(s);
    PrintedOnce(Parse(s));
    BareNameHasNoSlash(s);
  }

  /** Behind a registry, the tag of a name without a slash is taken for part of the name. */
  lemma TagOfBareNameIsLost(registry: string, name: string, tag: string)
    requires IsRegistry(registry)
    requires '/' !in name && '@' !in name && '/' !in tag && '@' !in tag && ':' !in tag
    ensures Parse(registry + ['/'] + (name + [':'] + tag)) ==
      ImageReference(registry, name + [':'] + tag, LATEST, false)
  {
    RegistryIsFound(registry, name + [':'] + tag);
    TagIsFoundIff(name, tag);
  }

  lemma SplitDecides(s: string, t: string)
    requires SplitRegistry(s) == SplitRegistry(t)
    ensures Parse(s) == Parse(t)
  {
  }

  /** A text without a registry is shorthand: written out for the hub, it parses to the same reference. */
  lemma ShorthandIsForTheHub(s: string)
    ensures '/' !in s ==> Parse(s) == Parse(DOCKER_HUB + ['/'] + (LIBRARY + s))
    ensures IndexOf(s, '/').Some? && !LooksLikeHost(s[..IndexOf(s, '/').value]) ==>
      Parse(s) == Parse(DOCKER_HUB + ['/'] + s)
  {
    var hub := DOCKER_HUB;
    assert hub[6] == '.';
    if '/' !in s {
      RegistryIsFound(DOCKER_HUB, LIBRARY + s);
      SplitDecides(s, DOCKER_HUB + ['/'] + (LIBRARY + s));
    } else if !LooksLikeHost(s[..IndexOf(s, '/').value]) {
      RegistryIsFound(DOCKER_HUB, s);
      SplitDecides(s, DOCKER_HUB + ['/'] + s);
    }
  }

  // -------------------------------------------------- the forms of a reference

  /** A bare name is an official image of the hub, at its latest tag. */
  lemma BareNameForm(name: string)
    requires '/' !in name && ':' !in name && '@' !in name
    ensures Parse(name) == ImageReference("registry-1.docker.io", "library/" + name, "latest", false)
  {
    Names();
    assert '@' !in LIBRARY + name && ':' !in LIBRARY + name;
  }

  /** A user's image with a tag, on the hub. */
  lemma HubForm(user: string, name: string, tag: string)
    requires '/' !in user && '.' !in user && ':' !in user && user != "localhost"
    requires '@' !in user && '@' !in name && '@' !in tag && ':' !in tag
    ensures Parse(user + ['/'] + name + [':'] + tag) ==
      ImageReference("registry-1.docker.io", user + ['/'] + name, tag, false)
  {
    var s, repository := user + ['/'] + name + [':'] + tag, user + ['/'] + name;
    assert s[|user|] == '/' && s[..|user|] == user && forall j | 0 <= j < |user| :: s[j] == user[j];
    assert SplitRegistry(s) == (DOCKER_HUB, s);
    assert repository[|user|] == '/';
    TagIsFoundIff(repository, tag);
  }

  /** A registry before the first slash, a tag behind the last colon of a name with a slash. */
  lemma RegistryForm(registry: string, repository: string, tag: string)
    requires '/' !in registry && ('.' in registry || ':' in registry || registry == "localhost")
    requires '/' in repository && '@' !in repository && '@' !in tag && ':' !in tag
    ensures Parse(registry + ['/'] + (repository + [':'] + tag)) ==
      ImageReference(if registry == "docker.io" then "registry-1.docker.io" else registry, repository, tag, false)
  {
    RegistryIsFound(registry, repository + [':'] + tag);
    TagIsFoundIff(repository, tag);
  }

  /** A digest behind the last at sign. */
  lemma DigestForm(registry: string, repository: string, digest: string)
    requires '/' !in registry && ('.' in registry || ':' in registry || registry == "localhost") && '@' !in digest
    ensures Parse(registry + ['/'] + (repository + ['@'] + digest)) ==
      ImageReference(if registry == "docker.io" then "registry-1.docker.io" else registry, repository, digest, true)
  {
    RegistryIsFound(registry, repository + ['@'] + digest);
    DigestIsFound(repository, digest);
  }
}
