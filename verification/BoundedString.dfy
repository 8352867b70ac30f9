/**
 Bounded copying and appending of NUL-terminated text into a fixed buffer, and the
 URI that the DSP library composes with them.
 */
module BoundedString {
  import opened Common

  const NUL: char := '\0'

  /** Text proper: the characters before a terminator. */
  predicate IsText(s: string) {
    NUL !in s
  }

  /** strnlen: the number of characters before the first terminator, at most |s|. */
  function TextLength(s: string): (n: nat)
    ensures n <= |s|
    ensures IsText(s[..n]) && (n < |s| ==> s[n] == NUL)
  {
    if s == [] || s[0] == NUL then 0 else 1 + TextLength(s[1..])
  }

  /** What a reader of the buffer sees. */
  function Text(s: string): (t: string)
    ensures IsText(t) && t <= s
  {
    s[..TextLength(s)]
  }

  predicate Terminated(s: string) {
    NUL in s
  }

  lemma {:induction false} TextIsBeforeTheTerminator(t: string, rest: string)
    requires IsText(t)
    ensures Text(t + [NUL] + rest) == t && Terminated(t + [NUL] + rest)
  {
    var s := t + [NUL] + rest;
    assert s[|t|] == NUL;
    if t != [] {
      TextIsBeforeTheTerminator(t[1..], rest);
      assert s[1..] == t[1..] + [NUL] + rest;
    }
  }

  lemma TerminatedIsShorter(s: string)
    ensures Terminated(s) <==> |Text(s)| < |s|
  {
  }

  /** s with t written over it from index k. */
  function Overlaid(s: string, k: nat, t: string): (r: string)
    requires k + |t| <= |s|
    ensures |r| == |s|
    ensures forall i :: 0 <= i < |r| ==> r[i] == if k <= i < k + |t| then t[i - k] else s[i]
  {
    s[..k] + t + s[k + |t|..]
  }

  /** memcpy of t to dst + k, and the terminator behind it. */
  method WriteTerminated(dst: array<char>, k: nat, t: string)
    requires k + |t| < dst.Length
    modifies dst
    ensures dst[..] == Overlaid(old(dst[..]), k, t + [NUL])
  {
    forall i | 0 <= i < |t| {
      dst[k + i] := t[i];
    }
    dst[k + |t|] := NUL;
    assert dst[..] == Overlaid(old(dst[..]), k, t + [NUL]);
  }

  /** strlcpy */
  method Strlcpy(dst: array<char>, src: string, size: nat) returns (len: nat)
    requires size <= dst.Length && IsText(src)
    modifies dst
    ensures len == |src|
    ensures size == 0 ==> dst[..] == old(dst[..])
    ensures size > 0 ==> dst[..] == Overlaid(old(dst[..]), 0, Take(src, size - 1) + [NUL])
    ensures size > 0 ==> Terminated(dst[..size]) && Text(dst[..size]) == Take(src, size - 1)
    ensures len >= size <==> (size == 0 || Text(dst[..size]) != src)
  {
    len := |src|;
    if size > 0 {
      var copied := if len >= size then size - 1 else len;
      WriteTerminated(dst, 0, src[..copied]);
      OverlaidText(old(dst[..]), 0, src[..copied], size);
      assert dst[..][..size] == dst[..size];
      assert src[..copied] == Take(src, size - 1);
    }
  }

  /** strlcat */
  method Strlcat(dst: array<char>, src: string, size: nat) returns (len: nat)
    requires size <= dst.Length && IsText(src)
    modifies dst
    ensures len == |Text(old(dst[..size]))| + |src|
    ensures !Terminated(old(dst[..size])) ==> dst[..] == old(dst[..]) && len >= size
    ensures Terminated(old(dst[..size])) ==>
      var t, room := Text(old(dst[..size])), size - 1 - |Text(old(dst[..size]))|;
      && dst[..] == Overlaid(old(dst[..]), |t|, Take(src, room) + [NUL])
      && Terminated(dst[..size]) && Text(dst[..size]) == Take(t + src, size - 1)
      && (len >= size <==> Text(dst[..size]) != t + src)
  {
    var held := TextLength(dst[..size]);
    ghost var t := Text(dst[..size]);
    TerminatedIsShorter(dst[..size]);
    len := held + |src|;
    if held < size {
      var remaining := size - held - 1;
      var copied := if |src| < remaining then |src| else remaining;
      WriteTerminated(dst, held, src[..copied]);
      assert dst[..][..size] == dst[..size] && old(dst[..])[..size] == old(dst[..size]);
      AppendedText(old(dst[..]), t, src, size);
      assert src[..copied] == Take(src, remaining);
    }
  }

  lemma AppendedText(before: string, t: string, src: string, size: nat)
    requires size <= |before| && t == Text(before[..size]) && |t| < size && IsText(src)
    ensures var after := Overlaid(before, |t|, Take(src, size - 1 - |t|) + [NUL]);
            Terminated(after[..size]) && Text(after[..size]) == Take(t + src, size - 1)
  {
    OverlaidText(before, |t|, Take(src, size - 1 - |t|), size);
    assert before[..|t|] == t;
    assert t + Take(src, size - 1 - |t|) == Take(t + src, size - 1);
  }

  /** The text of a buffer whose first k characters are text, after t and a terminator are written behind them. */
  lemma OverlaidText(s: string, k: nat, t: string, size: nat)
    requires k + |t| < size <= |s| && IsText(s[..k]) && IsText(t)
    ensures Text(Overlaid(s, k, t + [NUL])[..size]) == s[..k] + t
    ensures Terminated(Overlaid(s, k, t + [NUL])[..size])
  {
    TextIsBeforeTheTerminator(s[..k] + t, s[k + |t| + 1..size]);
    assert Overlaid(s, k, t + [NUL])[..size] == s[..k] + t + [NUL] + s[k + |t| + 1..size];
  }

  // ----- The client

  const ADSP_ID: nat := 0   // DSP_ADSP
  const CDSP_ID: nat := 3   // DSP_NPU0
  const ADSP_DOMAIN: string := "&_dom=adsp"
  const CDSP_DOMAIN: string := "&_dom=cdsp"

  /** The buffer of qcom_dsp_init, whose URI (sysmonquery_URI) has 73 characters. */
  const URI_BUFFER: nat := 256

  /** t in a buffer of the given size that is zero behind it. */
  function Padded(t: string, size: nat): (s: string)
    requires |t| <= size
    ensures |s| == size && t <= s && forall i :: |t| <= i < size ==> s[i] == NUL
  {
    t + seq(size - |t|, _ => NUL)
  }

  /** memset(dst, 0, size) */
  method Clear(dst: array<char>, size: nat)
    requires size <= dst.Length
    modifies dst
    ensures dst[..] == Overlaid(old(dst[..]), 0, Padded("", size))
  {
    forall i | 0 <= i < size {
      dst[i] := NUL;
    }
    assert dst[..] == Overlaid(old(dst[..]), 0, Padded("", size));
  }

  /**
   get_full_uri_info: the URI followed by the domain's suffix, cut to the buffer and
   zero-padded; all zero for any other domain. Nothing beyond size is written.
   */
  method GetFullUri(uri: string, full: array<char>, size: nat, domain: nat)
    requires 0 < size <= full.Length && IsText(uri)
    modifies full
    ensures full[size..] == old(full[size..])
    ensures full[..size] ==
      if domain == 0 then Padded(Take(uri + "&_dom=adsp", size - 1), size)
      else if domain == 3 then Padded(Take(uri + "&_dom=cdsp", size - 1), size)
      else Padded("", size)
  {
    CopyPadded(uri, full, size);
    if domain == ADSP_ID {
      Append(full, ADSP_DOMAIN, size, uri);
    } else if domain == CDSP_ID {
      Append(full, CDSP_DOMAIN, size, uri);
    } else {
      Wipe(full, size);
    }
  }

  /** The URI in a buffer that was zeroed before. */
  method CopyPadded(uri: string, full: array<char>, size: nat)
    requires 0 < size <= full.Length && IsText(uri)
    modifies full
    ensures full[..size] == Padded(Take(uri, size - 1), size) && full[size..] == old(full[size..])
  {
    ghost var before := full[..];
    Clear(full, size);
    ghost var zeroed := full[..];
    var _ := Strlcpy(full, uri, size);
    assert zeroed[..size] == Padded("", size) && zeroed[size..] == before[size..];
    OverlaidIsPadded(zeroed, "", Take(uri, size - 1), size);
    assert "" + Take(uri, size - 1) == Take(uri, size - 1);
    assert full[..][..size] == full[..size] && full[..][size..] == full[size..];
  }

  method Wipe(full: array<char>, size: nat)
    requires size <= full.Length
    modifies full
    ensures full[..size] == Padded("", size) && full[size..] == old(full[size..])
  {
    ghost var before := full[..];
    Clear(full, size);
    assert full[..][..size] == full[..size] && full[..][size..] == full[size..];
    assert before[size..] == full[size..];
  }

  method Append(full: array<char>, suffix: string, size: nat, ghost uri: string)
    requires 0 < size <= full.Length && IsText(uri) && IsText(suffix)
    requires full[..size] == Padded(Take(uri, size - 1), size)
    modifies full
    ensures full[..size] == Padded(Take(uri + suffix, size - 1), size)
    ensures full[size..] == old(full[size..])
  {
    ghost var before := full[..];
    assert before[..size] == full[..size] && before[size..] == full[size..];
    PaddedText(Take(uri, size - 1), size);
    var _ := Strlcat(full, suffix, size);
    AppendedIsPadded(before, full[..], uri, suffix, size);
    assert full[..][..size] == full[..size] && full[..][size..] == full[size..];
  }

  lemma AppendedIsPadded(before: string, after: string, uri: string, suffix: string, size: nat)
    requires 0 < size <= |before| && before[..size] == Padded(Take(uri, size - 1), size)
    requires var t := Take(uri, size - 1);
             after == Overlaid(before, |t|, Take(suffix, size - 1 - |t|) + [NUL])
    ensures after[..size] == Padded(Take(uri + suffix, size - 1), size)
    ensures after[size..] == before[size..]
  {
    var t := Take(uri, size - 1);
    SuffixIsCut(uri, suffix, size - 1);
    OverlaidIsPadded(before, t, Take(suffix, size - 1 - |t|), size);
  }

  lemma OverlaidIsPadded(s: string, t: string, more: string, size: nat)
    requires |t| + |more| < size <= |s| && s[..size] == Padded(t, size)
    ensures var r := Overlaid(s, |t|, more + [NUL]);
            r[..size] == Padded(t + more, size) && r[size..] == s[size..]
  {
    var r := Overlaid(s, |t|, more + [NUL]);
    forall i | 0 <= i < size ensures r[i] == Padded(t + more, size)[i] {
      assert s[i] == s[..size][i];
    }
    assert r[..size] == Padded(t + more, size);
    assert r[size..] == s[size..];
  }

  lemma SuffixIsCut(a: string, b: string, n: nat)
    ensures Take(a, n) + Take(b, n - |Take(a, n)|) == Take(a + b, n)
  {
    TakeTwice(a, b, n);
  }

  lemma PaddedText(t: string, size: nat)
    requires IsText(t) && |t| < size
    ensures Text(Padded(t, size)) == t && Terminated(Padded(t, size))
  {
    TextIsBeforeTheTerminator(t, seq(size - |t| - 1, _ => NUL));
    assert Padded(t, size) == t + [NUL] + seq(size - |t| - 1, _ => NUL);
  }

  /** As qcom_dsp_init calls it: a URI that leaves room for the suffix is never cut. */
  method SessionUri(uri: string, domain: nat) returns (full: string)
    requires IsText(uri) && |uri| + |CDSP_DOMAIN| < URI_BUFFER
    ensures full == if domain == 0 then uri + "&_dom=adsp" else if domain == 3 then uri + "&_dom=cdsp" else ""
  {
    var buf := new char[URI_BUFFER](_ => NUL);
    GetFullUri(uri, buf, URI_BUFFER, domain);
    assert buf[..] == buf[..URI_BUFFER];
    full := Text(buf[..]);
    if domain == ADSP_ID {
      PaddedText(uri + ADSP_DOMAIN, URI_BUFFER);
    } else if domain == CDSP_ID {
      PaddedText(uri + CDSP_DOMAIN, URI_BUFFER);
    } else {
      PaddedText("", URI_BUFFER);
    }
  }
}
