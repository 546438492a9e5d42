/** crates/core/src/security.rs: the module object. It stamps messages with a keyed
    MAC, remembers which stamps were revoked, and audits into the keyed chain. */
module Security {
  import opened ByteCodec
  import opened Types
  import opened AuditChain
  import Strip

  type Stamp = s: seq<bv8> | |s| == 32 witness seq(32, _ => 0)

  /** Equality without an early exit. */
  method ConstantTimeEq(a: Stamp, b: Stamp) returns (eq: bool)
    ensures eq <==> a == b
  {
    var diff: bv8 := 0;
    for i := 0 to 32
      invariant diff == 0 <==> a[..i] == b[..i]
    {
      XorIsZero(a[i], b[i]);
      OrIsZero(diff, a[i] ^ b[i]);
      diff := diff | (a[i] ^ b[i]);
      assert a[..i + 1] == a[..i] + [a[i]] && b[..i + 1] == b[..i] + [b[i]];
      assert a[..i + 1] == b[..i + 1] ==> a[..i + 1][..i] == b[..i + 1][..i] && a[..i + 1][i] == b[..i + 1][i];
    }
    assert a[..32] == a && b[..32] == b;
    return diff == 0;
  }

  lemma XorIsZero(x: bv8, y: bv8)
    ensures x ^ y == 0 <==> x == y
  {}

  lemma OrIsZero(x: bv8, y: bv8)
    ensures x | y == 0 <==> x == 0 && y == 0
  {}

  const MAX_DETAIL := 512

  /** Free text as it may enter the audit log. */
  function SanitizeDetail(s: string): (r: string)
    ensures |r| <= MAX_DETAIL
  {
    var kept := Filtered(s);
    if |kept| <= MAX_DETAIL then kept else kept[..MAX_DETAIL]
  }

  function Filtered(s: string): string {
    if s == "" then ""
    else (if !Strip.IsControl(s[0]) && !Strip.IsBidiOrFormat(s[0]) then [s[0]] else "") + Filtered(s[1..])
  }

  predicate IsPlain(s: string) {
    forall i :: 0 <= i < |s| ==> !Strip.IsControl(s[i]) && !Strip.IsBidiOrFormat(s[i])
  }

  /** What enters the log is one plain line taken from the text: no line break, no
      escape, no spoofing character; plain text of the length allowed is kept. */
  lemma SanitizedIsPlain(s: string)
    ensures IsPlain(SanitizeDetail(s)) && Strip.IsSubsequence(SanitizeDetail(s), s)
    ensures SanitizeDetail(s) == s <==> IsPlain(s) && |s| <= MAX_DETAIL
  {
    FilteredIsPlain(s);
    PrefixIsSubsequence(SanitizeDetail(s), Filtered(s), s);
  }

  /** What survives sanitising, written out: of the characters neither C0 or C1 control
      nor DEL, zero-width, directional or BOM, the first 512, in order. */
  function Plainly(s: string): string {
    if s == "" then ""
    else
      var v := s[0] as int;
      (if v < 0x20 || 0x7F <= v <= 0x9F || 0x200B <= v <= 0x200F || 0x202A <= v <= 0x202E
          || 0x2060 <= v <= 0x2064 || 0x2066 <= v <= 0x2069 || v == 0xFEFF then "" else [s[0]])
      + Plainly(s[1..])
  }

  lemma {:induction false} FilteredIsPlainly(s: string)
    ensures Filtered(s) == Plainly(s)
  {
    if s != "" {
      FilteredIsPlainly(s[1..]);
    }
  }

  lemma SanitizedIsPlainly(s: string)
    ensures SanitizeDetail(s) == if |Plainly(s)| <= 512 then Plainly(s) else Plainly(s)[..512]
  {
    FilteredIsPlainly(s);
  }

  lemma {:induction false} FilteredIsPlain(s: string)
    ensures IsPlain(Filtered(s)) && Strip.IsSubsequence(Filtered(s), s) && |Filtered(s)| <= |s|
    ensures Filtered(s) == s <==> IsPlain(s)
  {
    if s != "" {
      FilteredIsPlain(s[1..]);
      Strip.SubsequenceOfLonger(Filtered(s[1..]), s);
      assert s == [s[0]] + s[1..];
      assert IsPlain(s) <==> IsPlain([s[0]]) && IsPlain(s[1..]);
      if IsPlain([s[0]]) {
        assert Filtered(s)[1..] == Filtered(s[1..]);
      } else {
        assert Filtered(s) == Filtered(s[1..]);
      }
    }
  }

  lemma {:induction false} PrefixIsSubsequence(p: string, s: string, t: string)
    requires p <= s && Strip.IsSubsequence(s, t)
    ensures Strip.IsSubsequence(p, t)
    decreases |t|, |s|
  {
    if p != "" && t != "" {
      if s[0] == t[0] {
        PrefixIsSubsequence(p[1..], s[1..], t[1..]);
      } else {
        PrefixIsSubsequence(p, s, t[1..]);
      }
    }
  }

  class SecurityModule {
    const mac: seq<byte> -> Stamp
    const link: Link
    const stampRef: Stamp -> string
    var auditLog: seq<SecurityDecision>
    var lastHash: string
    var auditFile: Option<seq<Line>>
    var invalidated: set<Stamp>

    ghost function Contents(): Chain
      reads this
    {
      Chain(auditLog, lastHash, auditFile)
    }

    constructor WithKey(mac: seq<byte> -> Stamp, link: Link, stampRef: Stamp -> string)
      ensures Contents() == FRESH && invalidated == {}
      ensures this.mac == mac && this.link == link && this.stampRef == stampRef
    {
      this.mac, this.link, this.stampRef := mac, link, stampRef;
      auditLog, lastHash, auditFile := [], "", None;
      invalidated := {};
    }

    /** Opens the audit file whose lines are `lines`. On an IntegrityFailure the
        caller's module is gone with the call. */
    method WithAuditFile(lines: seq<Line>) returns (ok: bool)
      modifies this
      ensures ok <==> Loaded(link, old(Contents()), lines).Some?
      ensures ok ==> Contents() == Loaded(link, old(Contents()), lines).value
      ensures invalidated == old(invalidated)
    {
      ghost var start := Contents();
      ghost var es := [];
      for i := 0 to |lines|
        invariant Parsed(lines[..i]) == Some(es)
        invariant auditLog == start.log + es
        invariant lastHash == if es == [] then start.lastHash else Head(link, es)
        invariant auditFile == start.file && invalidated == old(invalidated)
      {
        assert lines[..i + 1][..i] == lines[..i];
        match lines[i] {
          case Blank =>
          case Garbled =>
            SpoiltFile(lines, i + 1);
            return false;
          case Record(entry) =>
            lastHash := link(entry);
            auditLog := auditLog + [entry];
            es := es + [entry];
        }
      }
      assert lines[..|lines|] == lines;
      var broken := VerifyChain(link, auditLog);
      if broken.Some? {
        return false;
      }
      auditFile := Some(lines);
      return true;
    }

    /** One call with no other call in between; overlapping calls are AuditThreads. */
    method Audit(kind: DecisionKind, detail: string, at: Timestamp)
      modifies this
      ensures Contents() == Audited(link, old(Contents()), Event(kind, detail, at))
      ensures auditLog == old(auditLog) + [SecurityDecision(kind, detail, at, old(lastHash))]
      ensures lastHash == link(auditLog[|old(auditLog)|])
      ensures auditFile == if old(auditFile).None? then None else Some(old(auditFile).value + [Record(auditLog[|old(auditLog)|])])
      ensures invalidated == old(invalidated)
    {
      var entry := SecurityDecision(kind, detail, at, lastHash);
      lastHash := link(entry);
      if auditFile.Some? {
        auditFile := Some(auditFile.value + [Record(entry)]);
      }
      auditLog := auditLog + [entry];
    }

    method StampMessage(content: seq<byte>, at: Timestamp) returns (stamp: Stamp)
      modifies this
      ensures stamp == mac(content)
      ensures Contents()
              == Audited(link, old(Contents()), Event(StampIssued, "stamp issued ref=" + stampRef(stamp), at))
      ensures auditLog
              == old(auditLog) + [SecurityDecision(StampIssued, "stamp issued ref=" + stampRef(stamp), at, old(lastHash))]
      ensures invalidated == old(invalidated)
    {
      stamp := mac(content);
      Audit(StampIssued, "stamp issued ref=" + stampRef(stamp), at);
    }

    method IsValid(stamp: Stamp, content: seq<byte>) returns (valid: bool)
      ensures valid <==> stamp !in invalidated && stamp == mac(content)
    {
      if stamp in invalidated {
        return false;
      }
      var expected := mac(content);
      valid := ConstantTimeEq(stamp, expected);
    }

    method Invalidate(stamp: Stamp, at: Timestamp)
      modifies this
      ensures invalidated == old(invalidated) + {stamp}
      ensures Contents()
              == Audited(link, old(Contents()), Event(StampInvalidated, "stamp invalidated ref=" + stampRef(stamp), at))
      ensures auditLog
              == old(auditLog) + [SecurityDecision(StampInvalidated, "stamp invalidated ref=" + stampRef(stamp), at, old(lastHash))]
    {
      Audit(StampInvalidated, "stamp invalidated ref=" + stampRef(stamp), at);
      invalidated := invalidated + {stamp};
    }

    method RecordDecision(granted: bool, detail: string, at: Timestamp)
      modifies this
      ensures Contents()
              == Audited(link, old(Contents()), Event(if granted then Grant else Denial, SanitizeDetail(detail), at))
      ensures |auditLog| == |old(auditLog)| + 1 && auditLog[..|old(auditLog)|] == old(auditLog)
      ensures var e := auditLog[|old(auditLog)|];
              && (e.kind == Grant <==> granted) && (e.kind == Denial <==> !granted)
              && e.detail == SanitizeDetail(detail) && e.at == at && e.prevHash == old(lastHash)
      ensures invalidated == old(invalidated)
    {
      Audit(if granted then Grant else Denial, SanitizeDetail(detail), at);
    }
  }

  lemma {:induction false} SpoiltFile(lines: seq<Line>, n: nat)
    requires n <= |lines| && Parsed(lines[..n]).None?
    ensures Parsed(lines).None?
    decreases |lines|
  {
    if n < |lines| {
      assert lines[..|lines| - 1][..n] == lines[..n];
      SpoiltFile(lines[..|lines| - 1], n);
    } else {
      assert lines[..n] == lines;
    }
  }
}
