/**
 Image references of internal/image/remote.go: how splitImageRef takes one apart, how Resolve
 puts it together again, and the names and tags of the OCI Distribution Specification.
 */
module ImageRef {
  import opened Model

  datatype Split = Split(repo: string, ref: string, isDigest: bool)

  /** The first position of c, where strings.Cut cuts, or -1. */
  function FirstIndex(s: string, c: char): (i: int)
    ensures -1 <= i < |s| && (i >= 0 ==> s[i] == c)
    ensures forall k | 0 <= k < |s| && (i == -1 || k < i) :: s[k] != c
  {
    if s == [] then -1
    else if s[0] == c then 0
    else
      var i := FirstIndex(s[1..], c);
      assert forall k | 1 <= k < |s| :: s[k] == s[1..][k - 1];
      if i == -1 then -1 else i + 1
  }

  /** strings.LastIndex. */
  function LastIndex(s: string, c: char): (i: int)
    ensures -1 <= i < |s| && (i >= 0 ==> s[i] == c)
    ensures forall k | i < k < |s| :: s[k] != c
  {
    if s == [] then -1
    else if s[|s| - 1] == c then |s| - 1
    else LastIndex(s[..|s| - 1], c)
  }

  /** splitImageRef. */
  function SplitImageRef(ref: string): Split {
    var at := FirstIndex(ref, '@');
    if at >= 0 then Split(ref[..at], ref[at + 1..], true)
    else
      var lastColon, lastSlash := LastIndex(ref, ':'), LastIndex(ref, '/');
      if lastColon <= lastSlash || lastColon == -1 then Split(ref, "latest", false)
      else Split(ref[..lastColon], ref[lastColon + 1..], false)
  }

  /** The reference Resolve writes after the registry's prefix. */
  function Join(s: Split): string {
    s.repo + (if s.isDigest then "@" else ":") + s.ref
  }

  /** The pull reference of Resolve, or none where it reports an invalid reference. */
  function PullRef(prefix: string, imageRef: string): Option<string> {
    var s := SplitImageRef(imageRef);
    if s.repo == "" || s.ref == "" then None else Some(prefix + "/" + Join(s))
  }

  /** A tag was written out: a colon with no slash after it, and no digest. */
  predicate HasTag(ref: string) {
    '@' !in ref && exists i | 0 <= i < |ref| :: ref[i] == ':' && forall k | i < k < |ref| :: ref[k] != '/'
  }

  predicate HasDigest(ref: string) {
    '@' in ref
  }

  // ---------- What the split means ----------

  /** A digest is found whatever it contains, after any repository without an at sign. */
  lemma SplitDigest(repo: string, digest: string)
    requires '@' !in repo
    ensures SplitImageRef(repo + "@" + digest) == Split(repo, digest, true)
  {
    var ref := repo + "@" + digest;
    assert ref[|repo|] == '@' && ref[..|repo|] == repo && ref[|repo| + 1..] == digest;
    assert forall k | 0 <= k < |repo| :: ref[k] == repo[k];
  }

  /** A tag is found after any repository without an at sign, colons of a host's port included. */
  lemma SplitTag(repo: string, tag: string)
    requires '@' !in repo && '@' !in tag && ':' !in tag && '/' !in tag
    ensures SplitImageRef(repo + ":" + tag) == Split(repo, tag, false)
  {
    var ref := repo + ":" + tag;
    assert ref[|repo|] == ':' && ref[..|repo|] == repo && ref[|repo| + 1..] == tag;
    assert forall k | 0 <= k < |repo| :: ref[k] == repo[k];
    assert forall k | |repo| < k < |ref| :: ref[k] == tag[k - |repo| - 1];
  }

  /** Without a digest or a tag the whole reference is the repository, host:port/name included. */
  lemma SplitBare(ref: string)
    requires !HasDigest(ref) && !HasTag(ref)
    ensures SplitImageRef(ref) == Split(ref, "latest", false)
  {
    var colon := LastIndex(ref, ':');
    if colon > LastIndex(ref, '/') && colon != -1 {
      assert HasTag(ref);
    }
  }

  lemma TagSplitsAt(ref: string)
    requires HasTag(ref)
    ensures var s := SplitImageRef(ref);
            && !s.isDigest && ref == s.repo + ":" + s.ref
            && '@' !in s.repo && '@' !in s.ref && ':' !in s.ref && '/' !in s.ref
  {
    var i :| 0 <= i < |ref| && ref[i] == ':' && forall k | i < k < |ref| :: ref[k] != '/';
    var colon := LastIndex(ref, ':');
    assert ref == ref[..colon] + ":" + ref[colon + 1..];
  }

  lemma DigestSplitsAt(ref: string)
    requires HasDigest(ref)
    ensures var s := SplitImageRef(ref);
            s.isDigest && ref == s.repo + "@" + s.ref && '@' !in s.repo
  {
    var at := FirstIndex(ref, '@');
    assert ref == ref[..at] + "@" + ref[at + 1..];
  }

  // ---------- Main results ----------

  /**
   Joining a split reference gives it back, with ":latest" added
   exactly where it named neither a tag nor a digest.
   */
  lemma JoinSplit(ref: string)
    ensures Join(SplitImageRef(ref)) == if HasTag(ref) || HasDigest(ref) then ref else ref + ":latest"
    ensures SplitImageRef(ref).isDigest <==> HasDigest(ref)
  {
    if HasDigest(ref) {
      DigestSplitsAt(ref);
    } else if HasTag(ref) {
      TagSplitsAt(ref);
    } else {
      SplitBare(ref);
    }
  }

  /** Splitting what Join wrote gives the same triple, for every reference at all. */
  lemma SplitJoinSplit(ref: string)
    ensures SplitImageRef(Join(SplitImageRef(ref))) == SplitImageRef(ref)
  {
    var s := SplitImageRef(ref);
    if HasDigest(ref) {
      DigestSplitsAt(ref);
      SplitDigest(s.repo, s.ref);
    } else if HasTag(ref) {
      TagSplitsAt(ref);
      SplitTag(s.repo, s.ref);
    } else {
      SplitBare(ref);
      SplitTag(ref, "latest");
    }
  }

  /**
   The pull reference names the same tag or digest, of the same repository at the registry:
   exactly when the registry's prefix has no at sign of its own.
   */
  lemma PullRefSplits(prefix: string, imageRef: string)
    requires PullRef(prefix, imageRef).Some?
    ensures var s := SplitImageRef(imageRef);
            SplitImageRef(PullRef(prefix, imageRef).value) == s.(repo := prefix + "/" + s.repo) <==> '@' !in prefix
  {
    var s := SplitImageRef(imageRef);
    var repo := prefix + "/" + s.repo;
    var pull := PullRef(prefix, imageRef).value;
    assert pull == Join(s.(repo := repo));
    if '@' in prefix {
      assert '@' in pull;
      DigestSplitsAt(pull);
      assert '@' in repo;
    } else {
      SplitParts(imageRef);
      assert '@' !in repo;
      if s.isDigest {
        SplitDigest(repo, s.ref);
      } else {
        SplitTag(repo, s.ref);
      }
    }
  }

  lemma JoinedParts(prefix: string, repo: string, mark: string, ref: string)
    ensures prefix + "/" + (repo + mark + ref) == prefix + "/" + repo + mark + ref
  {}

  /**
   Resolve keeps a digest or a tag that was written out and asks for latest otherwise. It refuses a
   reference without a repository, with nothing after the at sign or with nothing after the tag's colon.
   */
  lemma ResolveAnswers(prefix: string, repo: string, digest: string, tag: string, bare: string)
    requires '@' !in repo && '@' !in tag && ':' !in tag && '/' !in tag && !HasDigest(bare) && !HasTag(bare)
    ensures PullRef(prefix, repo + "@" + digest)
            == if repo == "" || digest == "" then None else Some(prefix + "/" + repo + "@" + digest)
    ensures PullRef(prefix, repo + ":" + tag)
            == if repo == "" || tag == "" then None else Some(prefix + "/" + repo + ":" + tag)
    ensures PullRef(prefix, bare) == if bare == "" then None else Some(prefix + "/" + bare + ":latest")
  {
    SplitDigest(repo, digest);
    SplitTag(repo, tag);
    SplitBare(bare);
    JoinedParts(prefix, repo, "@", digest);
    JoinedParts(prefix, repo, ":", tag);
    assert prefix + "/" + (bare + ":" + "latest") == prefix + "/" + bare + ":latest";
  }

  lemma SplitParts(ref: string)
    ensures var s := SplitImageRef(ref);
            '@' !in s.repo && (!s.isDigest ==> '@' !in s.ref && ':' !in s.ref && '/' !in s.ref)
  {
    if HasDigest(ref) {
      DigestSplitsAt(ref);
    } else if HasTag(ref) {
      TagSplitsAt(ref);
    } else {
      SplitBare(ref);
    }
  }

  // ---------- OCI Distribution Specification, section "Pulling manifests" ----------

  predicate LowerAlnum(c: char) {
    'a' <= c <= 'z' || '0' <= c <= '9'
  }

  /**
   Where a reader of a repository name stands: before a component's
   first character, in a run, or after a separator.
   */
  datatype NameState = ComponentStart | InRun | AfterDot | AfterUnderscore | AfterTwoUnderscores | AfterDash | NoName

  function NextNameState(state: NameState, c: char): NameState {
    if state.NoName? then NoName
    else if LowerAlnum(c) then InRun
    else match state
      case InRun =>
        if c == '.' then AfterDot
        else if c == '_' then AfterUnderscore
        else if c == '-' then AfterDash
        else if c == '/' then ComponentStart
        else NoName
      case AfterUnderscore => if c == '_' then AfterTwoUnderscores else NoName
      case AfterDash => if c == '-' then AfterDash else NoName
      case _ => NoName
  }

  function ReadName(s: string): NameState {
    if s == [] then ComponentStart else NextNameState(ReadName(s[..|s| - 1]), s[|s| - 1])
  }

  /** The grammar of a repository name. */
  predicate IsName(s: string) {
    ReadName(s).InRun?
  }

  predicate IsTagChar(c: char) {
    'a' <= c <= 'z' || 'A' <= c <= 'Z' || '0' <= c <= '9' || c == '_' || c == '.' || c == '-'
  }

  /** The grammar of a tag. */
  predicate IsTag(s: string) {
    1 <= |s| <= 128 && s[0] != '.' && s[0] != '-' && forall c <- s :: IsTagChar(c)
  }

  lemma {:induction false} NameChars(s: string)
    requires !ReadName(s).NoName?
    ensures '@' !in s && ':' !in s
  {
    if s != [] {
      NameChars(s[..|s| - 1]);
      assert s == s[..|s| - 1] + [s[|s| - 1]];
    }
  }

  /** Every name and tag, and every name and digest, come back from the reference they make, and Resolve accepts it. */
  lemma NamesComeBack(prefix: string, name: string, tag: string, digest: string)
    requires IsName(name) && IsTag(tag)
    ensures SplitImageRef(name + ":" + tag) == Split(name, tag, false)
    ensures SplitImageRef(name + "@" + digest) == Split(name, digest, true)
    ensures SplitImageRef(name) == Split(name, "latest", false)
    ensures PullRef(prefix, name + ":" + tag) == Some(prefix + "/" + name + ":" + tag)
    ensures digest != "" ==> PullRef(prefix, name + "@" + digest) == Some(prefix + "/" + name + "@" + digest)
    ensures PullRef(prefix, name) == Some(prefix + "/" + name + ":latest")
  {
    NameChars(name);
    SplitTag(name, tag);
    SplitDigest(name, digest);
    SplitBare(name);
    ResolveAnswers(prefix, name, digest, tag, name);
  }

  /** The references that ListCandidates makes of two names and tags differ unless both are the same. */
  lemma CandidatesDiffer(name: string, tag: string, name': string, tag': string)
    requires IsName(name) && IsTag(tag) && IsName(name') && IsTag(tag')
    ensures name + ":" + tag == name' + ":" + tag' <==> name == name' && tag == tag'
  {
    NamesComeBack("", name, tag, "");
    NamesComeBack("", name', tag', "");
  }
}
