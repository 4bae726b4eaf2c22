/** LocalFileSystem's path handling: a caller's path is joined to the root,
    normalised by one regular-expression pass and one string replacement,
    and accepted only when the result still starts with the root. Every
    operation that takes a path runs that check before its OS call; the OS
    calls themselves are recorded, not performed. */
module LocalFileSystem {

  /** The characters a path segment may not contain: the character class
      of the first alternative, which includes the separator. */
  predicate IsSegmentChar(ch: char) {
    ch != '<' && ch != '>' && ch != ':' && ch != '"' && ch != '?' && ch != '*' && ch != '|' && ch != '/'
  }

  /** Whether "/../" starts in s at i. */
  predicate ParentAt(s: string, i: nat) {
    i + 4 <= |s| && s[i] == '/' && s[i + 1] == '.' && s[i + 2] == '.' && s[i + 3] == '/'
  }

  /** Whether "/./" starts in s at i. */
  predicate DotAt(s: string, i: nat) {
    i + 3 <= |s| && s[i] == '/' && s[i + 1] == '.' && s[i + 2] == '/'
  }

  /** The end of the run of segment characters that starts at p. */
  function RunEnd(s: string, p: nat): (e: nat)
    requires p <= |s|
    ensures p <= e <= |s|
    ensures forall k :: p <= k < e ==> IsSegmentChar(s[k])
    ensures e < |s| ==> !IsSegmentChar(s[e])
    decreases |s| - p
  {
    if p < |s| && IsSegmentChar(s[p]) then RunEnd(s, p + 1) else p
  }

  /** The first alternative at p, `[^<>:"?*|/]+/(?=..)../`: the length of
      a segment followed by "/../", or 0 when there is none. The segment is
      the whole run from p, since the run can only be followed by "/" when
      it is not cut short. */
  function ParentMatch(s: string, p: nat): (n: nat)
    requires p <= |s|
    ensures n > 0 ==> n >= 5 && p + n <= |s| && ParentAt(s, p + n - 4)
    ensures n > 0 ==> n == RunEnd(s, p) - p + 4
    ensures n > 0 ==> forall k :: p <= k < p + n - 4 ==> IsSegmentChar(s[k])
    ensures n == 0 <==> RunEnd(s, p) == p || !ParentAt(s, RunEnd(s, p))
  {
    var e := RunEnd(s, p);
    if e > p && ParentAt(s, e) then e + 4 - p else 0
  }

  /** The second alternative at p, `(?<!:)/(?=/)`: a separator followed by
      another one, unless the original string has a colon just before it
      (as in "scheme://"). */
  predicate SlashMatch(s: string, p: nat) {
    p + 1 < |s| && s[p] == '/' && s[p + 1] == '/' && (p == 0 || s[p - 1] != ':')
  }

  /** preg_replace of the two alternatives by "" on s from p on: at each
      position the first alternative is tried, then the second; a match
      is dropped and the scan resumes after it, otherwise the character is
      kept. The lookbehind reads the original string, not the output. */
  function Collapse(s: string, p: nat): (r: string)
    requires p <= |s|
    ensures |r| <= |s| - p
    decreases |s| - p
  {
    if p == |s| then ""
    else
      var n := ParentMatch(s, p);
      if n > 0 then Collapse(s, p + n)
      else if SlashMatch(s, p) then Collapse(s, p + 1)
      else [s[p]] + Collapse(s, p + 1)
  }

  /** str_replace('/./', '/', s) on s from p on: occurrences are replaced
      left to right and do not overlap, so "/././" becomes "/./". */
  function ReplaceFrom(s: string, p: nat): (r: string)
    requires p <= |s|
    ensures |r| <= |s| - p
    decreases |s| - p
  {
    if p == |s| then ""
    else if DotAt(s, p) then
      "/" + ReplaceFrom(s, p + 3)
    else
      [s[p]] + ReplaceFrom(s, p + 1)
  }

  function ReplaceDotSegments(s: string): (r: string)
    ensures |r| <= |s|
  {
    ReplaceFrom(s, 0)
  }

  /** The string handed to the regular expression: the root, a separator
      unless the path starts with one, and the path. */
  function Join(root: string, path: string): (j: string)
    ensures |j| > |root| && j[..|root|] == root && j[|root|] == '/'
    ensures |path| > 0 && path[0] == '/' ==> j == root + path
    ensures !(|path| > 0 && path[0] == '/') ==> j == root + "/" + path
  {
    root + (if |path| > 0 && path[0] == '/' then "" else "/") + path
  }

  /** toRealPath: join, drop "segment/../" pairs and doubled separators in
      one pass, then replace "/./" by "/". No file system is consulted. */
  function ToRealPath(root: string, path: string): (r: string)
    ensures |r| <= |root| + 1 + |path|
  {
    ReplaceDotSegments(Collapse(Join(root, path), 0))
  }

  /** Whether toRealPath keeps the root as its prefix: strpos(.., root) === 0. */
  predicate Accepted(root: string, path: string) {
    var r := ToRealPath(root, path);
    |root| <= |r| && r[..|root|] == root
  }

  datatype Error = Inaccessible(path: string)

  datatype Result<+T> = Ok(value: T) | Err(error: Error)

  /** inBoundary: true when the normalised path starts with the root,
      otherwise InaccessibleFileException naming the caller's path. */
  function InBoundary(root: string, path: string): (r: Result<bool>)
    ensures r.Ok? ==> r.value
    ensures r.Ok? <==> Accepted(root, path)
    ensures r.Err? ==> r.error == Inaccessible(path)
  {
    if Accepted(root, path) then Ok(true) else Err(Inaccessible(path))
  }

  // ---------------------------------------------------------------------
  // The operations that take paths

  /** A path as handed to the OS: toRealPath's string itself, or what the
      OS realpath makes of it (which the model does not compute). */
  datatype Target = Lexical(path: string) | Resolved(path: string)

  /** The OS call an operation ends in. */
  datatype Effect =
    | TouchFile(target: Target)
    | MakeDir(target: Target)
    | RemoveDir(target: Target)
    | Rename(from: Target, to: Target)
    | PutContents(target: Target, content: string)
    | AppendContents(target: Target, content: string)
    | TruncateFile(target: Target)
    | GetContents(target: Target)
    | UnlinkFile(target: Target)
    | CopyFile(from: Target, to: Target)
    | FileSize(target: Target)
    | RealPath(target: Target)

  datatype Operation =
    | Touch(name: string)
    | MakeDirectory(name: string)
    | RemoveDirectory(name: string)
    | Move(current: string, newName: string)
    | Put(name: string, content: string)
    | Write(name: string, content: string)
    | Truncate(name: string)
    | Get(name: string)
    | Unlink(name: string)
    | Copy(source: string, destination: string)
    | Size(name: string)
    | Realpath(name: string)

  /** The path arguments an operation checks, in the order it checks them:
      move checks the new name before the current one, copy the
      destination before the source. */
  function CheckedPaths(op: Operation): (ps: seq<string>)
    ensures |ps| == (if op.Move? || op.Copy? then 2 else 1)
  {
    match op
    case Move(current, newName) => [newName, current]
    case Copy(source, destination) => [destination, source]
    case Touch(n) => [n]
    case MakeDirectory(n) => [n]
    case RemoveDirectory(n) => [n]
    case Put(n, _) => [n]
    case Write(n, _) => [n]
    case Truncate(n) => [n]
    case Get(n) => [n]
    case Unlink(n) => [n]
    case Size(n) => [n]
    case Realpath(n) => [n]
  }

  /** The paths an OS call is given. */
  function Targets(effect: Effect): (ts: seq<Target>)
    ensures |ts| == (if effect.Rename? || effect.CopyFile? then 2 else 1)
  {
    match effect
    case Rename(from, to) => [from, to]
    case CopyFile(from, to) => [from, to]
    case TouchFile(t) => [t]
    case MakeDir(t) => [t]
    case RemoveDir(t) => [t]
    case PutContents(t, _) => [t]
    case AppendContents(t, _) => [t]
    case TruncateFile(t) => [t]
    case GetContents(t) => [t]
    case UnlinkFile(t) => [t]
    case FileSize(t) => [t]
    case RealPath(t) => [t]
  }

  /** Which OS function each operation calls, and the content it passes
      on: touch, mkdir, rmdir, rename, file_put_contents (plain or with
      FILE_APPEND), fopen 'w', file_get_contents, unlink, copy, filesize
      and realpath. */
  predicate CallsFor(op: Operation, e: Effect)
  {
    match op
    case Touch(_) => e.TouchFile?
    case MakeDirectory(_) => e.MakeDir?
    case RemoveDirectory(_) => e.RemoveDir?
    case Move(_, _) => e.Rename?
    case Put(_, c) => e.PutContents? && e.content == c
    case Write(_, c) => e.AppendContents? && e.content == c
    case Truncate(_) => e.TruncateFile?
    case Get(_) => e.GetContents?
    case Unlink(_) => e.UnlinkFile?
    case Copy(_, _) => e.CopyFile?
    case Size(_) => e.FileSize?
    case Realpath(_) => e.RealPath?
  }

  /** The operations whose only (or source) path goes through
      $this->realpath; touch, makeDirectory, removeDirectory and put hand
      toRealPath's string to the OS call directly. */
  predicate ThroughRealpath(op: Operation)
  {
    !(op.Touch? || op.MakeDirectory? || op.RemoveDirectory? || op.Put?)
  }

  /** The OS call an operation makes once its checks pass: toRealPath of
      the path for the calls that take it directly, realpath of it for
      the ones that go through $this->realpath. Whatever the call, it is
      given exactly the normalised forms of the paths the operation
      checks, one target per checked path; the checks run in the reverse
      of the call's argument order, so the first target is the path
      checked last. */
  function EffectOf(root: string, op: Operation): (r: Effect)
    ensures CallsFor(op, r)
    ensures Targets(r)[0].Resolved? <==> ThroughRealpath(op)
    ensures |Targets(r)| == 2 ==> Targets(r)[1].Lexical?
    ensures |Targets(r)| == |CheckedPaths(op)|
    ensures Targets(r)[0].path == ToRealPath(root, CheckedPaths(op)[|CheckedPaths(op)| - 1])
    ensures |Targets(r)| == 2 ==> Targets(r)[1].path == ToRealPath(root, CheckedPaths(op)[0])
  {
    match op
    case Touch(n) => TouchFile(Lexical(ToRealPath(root, n)))
    case MakeDirectory(n) => MakeDir(Lexical(ToRealPath(root, n)))
    case RemoveDirectory(n) => RemoveDir(Lexical(ToRealPath(root, n)))
    case Move(current, newName) => Rename(Resolved(ToRealPath(root, current)), Lexical(ToRealPath(root, newName)))
    case Put(n, content) => PutContents(Lexical(ToRealPath(root, n)), content)
    case Write(n, content) => AppendContents(Resolved(ToRealPath(root, n)), content)
    case Truncate(n) => TruncateFile(Resolved(ToRealPath(root, n)))
    case Get(n) => GetContents(Resolved(ToRealPath(root, n)))
    case Unlink(n) => UnlinkFile(Resolved(ToRealPath(root, n)))
    case Copy(source, destination) => CopyFile(Resolved(ToRealPath(root, source)), Lexical(ToRealPath(root, destination)))
    case Size(n) => FileSize(Resolved(ToRealPath(root, n)))
    case Realpath(n) => RealPath(Resolved(ToRealPath(root, n)))
  }

  /** One or two inBoundary calls in order, then the call: the first
      path that fails raises, and nothing after it runs. */
  function Guarded(root: string, ps: seq<string>, effect: Effect): (r: Result<Effect>)
    requires 1 <= |ps| <= 2
    ensures !Accepted(root, ps[0]) ==> r == Err(Inaccessible(ps[0]))
    ensures Accepted(root, ps[0]) && |ps| == 2 && !Accepted(root, ps[1]) ==> r == Err(Inaccessible(ps[1]))
    ensures r.Ok? <==> Accepted(root, ps[0]) && (|ps| == 2 ==> Accepted(root, ps[1]))
    ensures r.Ok? ==> r.value == effect
  {
    match InBoundary(root, ps[0])
    case Err(err) => Err(err)
    case Ok(_) =>
      if |ps| == 1 then Ok(effect)
      else
        match InBoundary(root, ps[1])
        case Err(err) => Err(err)
        case Ok(_) => Ok(effect)
  }

  /** An operation on the file system rooted at `root`: the OS call it
      makes, or the exception its boundary checks raise before any call.
      Every path argument is checked: move checks the new name, then the
      current one inside realpath; copy the destination, then the source. */
  function Perform(root: string, op: Operation): (r: Result<Effect>)
    ensures var ps := CheckedPaths(op);
      && (!Accepted(root, ps[0]) ==> r == Err(Inaccessible(ps[0])))
      && (Accepted(root, ps[0]) && |ps| == 2 && !Accepted(root, ps[1]) ==> r == Err(Inaccessible(ps[1])))
      && (r.Ok? <==> Accepted(root, ps[0]) && (|ps| == 2 ==> Accepted(root, ps[1])))
      && (r.Ok? ==> r.value == EffectOf(root, op))
  {
    Guarded(root, CheckedPaths(op), EffectOf(root, op))
  }
}
