/** crates/core/src/security.rs: the capability policy. The code compares raw
    strings; what it means is a comparison of path components and of host labels. */
module AllowList {
  datatype Capability =
    | FileRead(path: string)
    | FileWrite(path: string)
    | Network(host: string)
    | Shell
    | Git

  datatype SecurityPolicy = SecurityPolicy(
    fileReadPrefixes: seq<string>, fileWritePrefixes: seq<string>, networkAllowlist: seq<string>,
    allowShell: bool, allowGit: bool)

  predicate HasDotDot(s: string) {
    exists i :: 0 <= i < |s| - 1 && s[i] == '.' && s[i + 1] == '.'
  }

  function TrimEnd(s: string, c: char): string {
    if s != "" && s[|s| - 1] == c then TrimEnd(s[..|s| - 1], c) else s
  }

  predicate EndsWith(s: string, t: string) {
    |t| <= |s| && s[|s| - |t|..] == t
  }

  predicate CheckFilePath(path: string, prefixes: seq<string>) {
    if HasDotDot(path) then false
    else
      exists k :: 0 <= k < |prefixes|
        && var p := TrimEnd(prefixes[k], '/');
           path == p || p + "/" <= path
  }

  predicate IsAllowed(policy: SecurityPolicy, cap: Capability) {
    match cap
    case FileRead(path) => CheckFilePath(path, policy.fileReadPrefixes)
    case FileWrite(path) => CheckFilePath(path, policy.fileWritePrefixes)
    case Network(host) =>
      exists k :: 0 <= k < |policy.networkAllowlist|
        && (host == policy.networkAllowlist[k] || EndsWith(host, "." + policy.networkAllowlist[k]))
    case Shell => policy.allowShell
    case Git => policy.allowGit
  }

  // ---- Splitting and joining ----

  /** The parts between separators; a string without one is a single part. */
  function Split(s: string, sep: char): (parts: seq<string>)
    ensures parts != []
  {
    if s == "" then [""]
    else
      var rest := Split(s[1..], sep);
      if s[0] == sep then [""] + rest else Widen(s[0], rest)
  }

  /** Puts `c` in front of the first part. */
  function Widen(c: char, parts: seq<string>): (r: seq<string>)
    requires parts != []
    ensures r != []
  {
    [[c] + parts[0]] + parts[1..]
  }

  lemma WidenAppend(c: char, x: seq<string>, y: seq<string>)
    requires x != []
    ensures Widen(c, x + y) == Widen(c, x) + y
  {
    assert (x + y)[1..] == x[1..] + y;
  }

  function Join(parts: seq<string>, sep: char): string
    requires parts != []
  {
    if |parts| == 1 then parts[0] else parts[0] + [sep] + Join(parts[1..], sep)
  }

  lemma {:induction false} JoinSplit(s: string, sep: char)
    ensures Join(Split(s, sep), sep) == s
  {
    if s != "" {
      var rest := Split(s[1..], sep);
      JoinSplit(s[1..], sep);
      if s[0] == sep {
        assert ([""] + rest)[1..] == rest;
      } else {
        var parts := Widen(s[0], rest);
        assert parts[1..] == rest[1..];
        assert |rest| > 1 ==> Join(parts, sep) == [s[0]] + (rest[0] + [sep] + Join(rest[1..], sep));
      }
      assert s == [s[0]] + s[1..];
    }
  }

  lemma {:induction false} SplitAtSeparator(a: string, b: string, sep: char)
    ensures Split(a + [sep] + b, sep) == Split(a, sep) + Split(b, sep)
  {
    var s := a + [sep] + b;
    if a == "" {
      assert s[1..] == b;
    } else {
      assert s[1..] == a[1..] + [sep] + b;
      SplitAtSeparator(a[1..], b, sep);
      if a[0] == sep {
        assert [""] + (Split(a[1..], sep) + Split(b, sep)) == ([""] + Split(a[1..], sep)) + Split(b, sep);
      } else {
        WidenAppend(a[0], Split(a[1..], sep), Split(b, sep));
      }
    }
  }

  lemma {:induction false} JoinAppend(x: seq<string>, y: seq<string>, sep: char)
    requires x != [] && y != []
    ensures Join(x + y, sep) == Join(x, sep) + [sep] + Join(y, sep)
  {
    assert (x + y)[1..] == x[1..] + y;
    if |x| > 1 {
      JoinAppend(x[1..], y, sep);
    } else {
      assert x[1..] + y == y;
    }
  }

  /** A raw prefix up to a separator is a prefix of the parts. */
  lemma PrefixByParts(s: string, p: string, sep: char)
    ensures s == p || p + [sep] <= s <==> Split(p, sep) <= Split(s, sep)
  {
    if p + [sep] <= s {
      assert s == p + [sep] + s[|p| + 1..];
      SplitAtSeparator(p, s[|p| + 1..], sep);
    }
    if Split(p, sep) <= Split(s, sep) {
      var rest := Split(s, sep)[|Split(p, sep)|..];
      assert Split(s, sep) == Split(p, sep) + rest;
      JoinSplit(s, sep);
      JoinSplit(p, sep);
      if rest != [] {
        JoinAppend(Split(p, sep), rest, sep);
        assert s == p + [sep] + Join(rest, sep);
      } else {
        assert Split(s, sep) == Split(p, sep);
      }
    }
  }

  ghost predicate SuffixOf(x: seq<string>, y: seq<string>) {
    |x| <= |y| && y[|y| - |x|..] == x
  }

  ghost function FrontOf(x: seq<string>, y: seq<string>): (front: seq<string>)
    requires SuffixOf(x, y)
    ensures y == front + x
  {
    y[..|y| - |x|]
  }

  /** A raw suffix from a separator on is a suffix of the parts. */
  lemma SuffixByParts(s: string, t: string, sep: char)
    ensures s == t || EndsWith(s, [sep] + t) <==> SuffixOf(Split(t, sep), Split(s, sep))
  {
    if EndsWith(s, [sep] + t) {
      var head := s[..|s| - |t| - 1];
      assert s == head + ([sep] + t) == head + [sep] + t;
      SplitAtSeparator(head, t, sep);
    }
    if SuffixOf(Split(t, sep), Split(s, sep)) {
      var front := FrontOf(Split(t, sep), Split(s, sep));
      PartsInFront(s, t, sep, front);
      if front != [] {
        ConcatEndsWith(Join(front, sep), [sep] + t);
      }
    }
  }

  lemma ConcatEndsWith(a: string, b: string)
    ensures EndsWith(a + b, b)
  {
    assert (a + b)[|a|..] == b;
  }

  lemma PartsInFront(s: string, t: string, sep: char, front: seq<string>)
    requires Split(s, sep) == front + Split(t, sep)
    ensures front == [] ==> s == t
    ensures front != [] ==> s == Join(front, sep) + ([sep] + t)
  {
    JoinSplit(s, sep);
    JoinSplit(t, sep);
    if front == [] {
      assert front + Split(t, sep) == Split(t, sep);
    } else {
      JoinAppend(front, Split(t, sep), sep);
      assert Join(front, sep) + [sep] + t == Join(front, sep) + ([sep] + t);
    }
  }

  // ---- What the policy grants ----

  /** A path is granted exactly if it holds no `..` and some allowed prefix, without
      its trailing slashes, is a prefix of it component by component. */
  lemma PathIsGrantedIff(path: string, prefixes: seq<string>)
    ensures CheckFilePath(path, prefixes)
            <==> !HasDotDot(path)
                 && exists k :: 0 <= k < |prefixes| && Split(TrimEnd(prefixes[k], '/'), '/') <= Split(path, '/')
  {
    forall k | 0 <= k < |prefixes|
      ensures var p := TrimEnd(prefixes[k], '/');
              path == p || p + "/" <= path <==> Split(p, '/') <= Split(path, '/')
    {
      PrefixByParts(path, TrimEnd(prefixes[k], '/'), '/');
    }
  }

  /** A host is granted exactly if the labels of some allowed name end its own. */
  lemma HostIsGrantedIff(policy: SecurityPolicy, host: string)
    ensures IsAllowed(policy, Network(host))
            <==> exists k :: 0 <= k < |policy.networkAllowlist|
                             && SuffixOf(Split(policy.networkAllowlist[k], '.'), Split(host, '.'))
  {
    forall k | 0 <= k < |policy.networkAllowlist|
      ensures var t := policy.networkAllowlist[k];
              host == t || EndsWith(host, "." + t) <==> SuffixOf(Split(t, '.'), Split(host, '.'))
    {
      SuffixByParts(host, policy.networkAllowlist[k], '.');
    }
  }

  // ---- Each capability, written out ----

  /** `p` without its trailing slashes is `t`. */
  ghost predicate TrimsTo(p: string, t: string) {
    && t <= p && (t != "" ==> t[|t| - 1] != '/')
    && forall i :: |t| <= i < |p| ==> p[i] == '/'
  }

  lemma {:induction false} TrimEndTrims(p: string)
    ensures TrimsTo(p, TrimEnd(p, '/'))
  {
    if p != "" && p[|p| - 1] == '/' {
      TrimEndTrims(p[..|p| - 1]);
    }
  }

  lemma TrimIsUnique(p: string, t: string, u: string)
    requires TrimsTo(p, t) && TrimsTo(p, u)
    ensures t == u
  {
    assert t == p[..|t|] && u == p[..|u|];
  }

  predicate DotsAt(path: string, i: nat) {
    i + 2 <= |path| && path[i..i + 2] == ".."
  }

  lemma HasDotsIff(path: string)
    ensures HasDotDot(path) <==> exists i :: DotsAt(path, i)
  {
    if HasDotDot(path) {
      var i :| 0 <= i < |path| - 1 && path[i] == '.' && path[i + 1] == '.';
      assert DotsAt(path, i);
    }
    if i: nat :| DotsAt(path, i) {
      assert path[i] == path[i..i + 2][0] && path[i + 1] == path[i..i + 2][1];
    }
  }

  /** The path holds no `..`, and one of the prefixes, less its trailing slashes, has
      components that begin the path's. */
  ghost predicate PathFits(path: string, prefixes: seq<string>) {
    && (forall i :: !DotsAt(path, i))
    && exists k, t :: 0 <= k < |prefixes| && TrimsTo(prefixes[k], t) && Split(t, '/') <= Split(path, '/')
  }

  lemma CheckedIffFits(path: string, prefixes: seq<string>)
    ensures CheckFilePath(path, prefixes) <==> PathFits(path, prefixes)
  {
    PathIsGrantedIff(path, prefixes);
    HasDotsIff(path);
    forall k | 0 <= k < |prefixes|
      ensures TrimsTo(prefixes[k], TrimEnd(prefixes[k], '/'))
    {
      TrimEndTrims(prefixes[k]);
    }
    forall k, t | 0 <= k < |prefixes| && TrimsTo(prefixes[k], t)
      ensures t == TrimEnd(prefixes[k], '/')
    {
      TrimIsUnique(prefixes[k], t, TrimEnd(prefixes[k], '/'));
    }
  }

  /** Reads go by the read prefixes, writes by the write prefixes, the shell and git by
      their own flags, hosts by their labels, whatever the rest of the policy says. */
  lemma CapabilityIsGrantedIff(policy: SecurityPolicy, path: string, host: string)
    ensures IsAllowed(policy, FileRead(path)) <==> PathFits(path, policy.fileReadPrefixes)
    ensures IsAllowed(policy, FileWrite(path)) <==> PathFits(path, policy.fileWritePrefixes)
    ensures IsAllowed(policy, Shell) <==> policy.allowShell
    ensures IsAllowed(policy, Git) <==> policy.allowGit
    ensures IsAllowed(policy, Network(host))
            <==> exists k :: 0 <= k < |policy.networkAllowlist|
                             && SuffixOf(Split(policy.networkAllowlist[k], '.'), Split(host, '.'))
  {
    CheckedIffFits(path, policy.fileReadPrefixes);
    CheckedIffFits(path, policy.fileWritePrefixes);
    HostIsGrantedIff(policy, host);
  }

  /** Parts hold no separator and join to the string, so they are its components. */
  lemma {:induction false} SplitHoldsNoSeparator(s: string, sep: char, i: nat)
    requires i < |Split(s, sep)|
    ensures sep !in Split(s, sep)[i]
  {
    if s != "" {
      var rest := Split(s[1..], sep);
      if s[0] == sep {
        if i > 0 {
          SplitHoldsNoSeparator(s[1..], sep, i - 1);
        }
      } else {
        SplitHoldsNoSeparator(s[1..], sep, i);
      }
    }
  }
}
