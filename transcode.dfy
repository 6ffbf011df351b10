/**
 * The decision half of the stream endpoint: whether to transcode a track,
 * to which format and bitrate, and which external command line(s) to run.
 * Spawning the processes and streaming their output are not modelled.
 */
module Transcode {
  import opened Wrappers
  import opened Strings

  // ---------------------------------------------------------------------
  // Command-line templates

  /** `prepare_transcoding_cmdline`: `None` for an empty (or missing)
      template, otherwise the four placeholders replaced in this order,
      each everywhere it occurs; the source path is put in double quotes. */
  function PrepareCmdline(template: string, path: string, srcFmt: string, outFmt: string, outRate: int): (r: Option<string>)
    ensures r.None? <==> template == ""
  {
    if template == "" then None
    else
      var s1 := ReplaceAll(template, "%srcpath", "\"" + path + "\"");
      var s2 := ReplaceAll(s1, "%srcfmt", srcFmt);
      var s3 := ReplaceAll(s2, "%outfmt", outFmt);
      Some(ReplaceAll(s3, "%outrate", IntToString(outRate)))
  }

  predicate NoPercent(s: string) {
    '%' !in s
  }

  /** A pattern starting with '%' does not occur in text without '%'. */
  lemma NoPercentNoPlaceholder(s: string, pat: string)
    requires NoPercent(s) && |pat| > 0 && pat[0] == '%'
    ensures IndexOf(s, pat).None?
  {
  }

  /** A template without placeholders is passed through unchanged. */
  lemma {:induction false} PrepareWithoutPlaceholders(template: string, path: string, srcFmt: string, outFmt: string, outRate: int)
    requires template != "" && NoPercent(template)
    ensures PrepareCmdline(template, path, srcFmt, outFmt, outRate) == Some(template)
  {
    NoPercentNoPlaceholder(template, "%srcpath");
    NoPercentNoPlaceholder(template, "%srcfmt");
    NoPercentNoPlaceholder(template, "%outfmt");
    NoPercentNoPlaceholder(template, "%outrate");
  }

  /** In a template whose text around one placeholder has no '%', that
      placeholder is the first occurrence of the pattern. */
  lemma PlaceholderFirst(a: string, pat: string, b: string)
    requires NoPercent(a) && |pat| > 0 && pat[0] == '%'
    ensures IndexOf(a + pat + b, pat) == Some(|a|)
  {
    var t := a + pat + b;
    assert t[|a|..|a| + |pat|] == pat;
    assert OccursAt(t, pat, |a|);
  }

  /** `%srcpath` inside a template becomes the source path as one quoted
      token, the text around it kept, provided neither that text nor the
      path brings in a placeholder. */
  lemma {:induction false} PrepareQuotesPath(a: string, b: string, path: string, srcFmt: string, outFmt: string, outRate: int)
    requires NoPercent(a) && NoPercent(b) && NoPercent(path)
    ensures PrepareCmdline(a + "%srcpath" + b, path, srcFmt, outFmt, outRate) == Some(a + "\"" + path + "\"" + b)
  {
    var quoted := "\"" + path + "\"";
    var t := a + "%srcpath" + b;
    PlaceholderFirst(a, "%srcpath", b);
    assert t[..|a|] == a && t[|a| + |"%srcpath"|..] == b;
    NoPercentNoPlaceholder(b, "%srcpath");
    assert ReplaceAll(t, "%srcpath", quoted) == a + quoted + b;
    var r := a + quoted + b;
    assert r == a + "\"" + path + "\"" + b;
    assert NoPercent(r) by {
      forall i | 0 <= i < |r| ensures r[i] != '%' {
        if i < |a| {
          assert r[i] == a[i];
        } else if i == |a| || i == |a| + |path| + 1 {
        } else if i < |a| + |path| + 1 {
          assert r[i] == path[i - |a| - 1];
        } else {
          assert r[i] == b[i - |a| - |path| - 2];
        }
      }
    }
    NoPercentNoPlaceholder(r, "%srcfmt");
    NoPercentNoPlaceholder(r, "%outfmt");
    NoPercentNoPlaceholder(r, "%outrate");
  }

  /** The one placeholder in a template whose other text has no '%' is
      replaced by `rep`, the text around it kept. */
  lemma ReplaceSole(a: string, pat: string, b: string, rep: string)
    requires NoPercent(a) && NoPercent(b) && |pat| > 0 && pat[0] == '%'
    ensures ReplaceAll(a + pat + b, pat, rep) == a + rep + b
  {
    var t := a + pat + b;
    PlaceholderFirst(a, pat, b);
    assert t[..|a|] == a && t[|a| + |pat|..] == b;
    NoPercentNoPlaceholder(b, pat);
  }

  /** A placeholder `pat` does not occur in a template whose only '%' starts
      the placeholder `m`, when the two differ at position `k`. */
  lemma OtherPlaceholderAbsent(a: string, m: string, b: string, pat: string, k: nat)
    requires NoPercent(a) && NoPercent(b)
    requires |m| > 0 && m[0] == '%' && NoPercent(m[1..])
    requires |pat| > 0 && pat[0] == '%'
    requires k < |m| && k < |pat| && m[k] != pat[k]
    ensures IndexOf(a + m + b, pat).None?
  {
  }

  /** `str(i)` is digits after an optional minus sign, never a '%'. */
  lemma IntToStringNoPercent(i: int)
    ensures NoPercent(IntToString(i))
  {
    var d := NatToString(if i < 0 then -i else i);
    assert forall j :: 0 <= j < |d| ==> IsDigit(d[j]);
    if i < 0 {
      assert IntToString(i) == "-" + d;
      assert forall j :: 0 <= j < |d| ==> ("-" + d)[j + 1] == d[j];
    }
  }

  /** `%srcfmt` inside a template becomes the source format, the text around
      it kept, provided neither that text nor the format brings in a
      placeholder. */
  lemma {:induction false} PrepareSubstitutesSrcFmt(a: string, b: string, path: string, srcFmt: string, outFmt: string, outRate: int)
    requires NoPercent(a) && NoPercent(b) && NoPercent(srcFmt)
    ensures PrepareCmdline(a + "%srcfmt" + b, path, srcFmt, outFmt, outRate) == Some(a + srcFmt + b)
  {
    var t := a + "%srcfmt" + b;
    OtherPlaceholderAbsent(a, "%srcfmt", b, "%srcpath", 4);
    ReplaceSole(a, "%srcfmt", b, srcFmt);
    var r := a + srcFmt + b;
    assert NoPercent(r);
    NoPercentNoPlaceholder(r, "%outfmt");
    NoPercentNoPlaceholder(r, "%outrate");
  }

  /** `%outfmt` inside a template becomes the destination format, the text
      around it kept, provided neither that text nor the format brings in a
      placeholder. */
  lemma {:induction false} PrepareSubstitutesOutFmt(a: string, b: string, path: string, srcFmt: string, outFmt: string, outRate: int)
    requires NoPercent(a) && NoPercent(b) && NoPercent(outFmt)
    ensures PrepareCmdline(a + "%outfmt" + b, path, srcFmt, outFmt, outRate) == Some(a + outFmt + b)
  {
    OtherPlaceholderAbsent(a, "%outfmt", b, "%srcpath", 1);
    OtherPlaceholderAbsent(a, "%outfmt", b, "%srcfmt", 1);
    ReplaceSole(a, "%outfmt", b, outFmt);
    var r := a + outFmt + b;
    assert NoPercent(r);
    NoPercentNoPlaceholder(r, "%outrate");
  }

  /** `%outrate` inside a template becomes the planned bitrate written as
      `str()` writes it, the text around it kept. */
  lemma {:induction false} PrepareSubstitutesOutRate(a: string, b: string, path: string, srcFmt: string, outFmt: string, outRate: int)
    requires NoPercent(a) && NoPercent(b)
    ensures PrepareCmdline(a + "%outrate" + b, path, srcFmt, outFmt, outRate) == Some(a + IntToString(outRate) + b)
  {
    OtherPlaceholderAbsent(a, "%outrate", b, "%srcpath", 1);
    OtherPlaceholderAbsent(a, "%outrate", b, "%srcfmt", 1);
    OtherPlaceholderAbsent(a, "%outrate", b, "%outfmt", 4);
    ReplaceSole(a, "%outrate", b, IntToString(outRate));
  }

  /** The split of a combined template at its first '|': the decoder is the
      text before it, the encoder the text after it. */
  function PipeSplit(line: string): (r: Option<(string, string)>)
    ensures r.None? <==> '|' !in line
    ensures r.Some? ==> r.value.0 + "|" + r.value.1 == line && '|' !in r.value.0
  {
    match IndexOf(line, "|")
    case None =>
      assert forall j :: 0 <= j < |line| ==> line[j] != '|' by {
        forall j | 0 <= j < |line| ensures line[j] != '|' {
          assert !OccursAt(line, "|", j);
          assert line[j..j + 1] == [line[j]];
        }
      }
      None
    case Some(i) =>
      assert line[i..i + 1] == "|";
      assert forall j :: 0 <= j < i ==> line[j] != '|' by {
        forall j | 0 <= j < i ensures line[j] != '|' {
          assert !OccursAt(line, "|", j);
          assert line[j..j + 1] == [line[j]];
        }
      }
      assert line == line[..i] + "|" + line[i + 1..];
      Some((line[..i], line[i + 1..]))
  }

  // ---------------------------------------------------------------------
  // The transcode decision

  /** A request parameter or configuration value; the empty string stands
      for a missing one, which the server treats the same way. */
  type Param = string

  datatype StreamRequest = StreamRequest(maxBitRate: Param, format: Param, client: Param)

  datatype PrefsKey = PrefsKey(user: string, client: string)

  /** Stored preferences of one client; "" and 0 stand for unset columns. */
  datatype ClientPrefs = ClientPrefs(format: string, bitrate: int)

  /** The content type sent with the response: the guess of the `mimetypes`
      library for a file name, or the literal `audio/ogg`. */
  datatype Mime = GuessedFrom(name: string) | AudioOgg

  datatype Decision = Decision(transcode: bool, dstSuffix: string, dstBitrate: int, mime: Mime)

  datatype StreamError =
    | InvalidBitrate
    | NoWayToTranscode(src: string, dst: string)
    | NoneNotIterable   // the TypeError raised by `'|' in None`
    | ProcessFailed     // an exception inside the process-spawning block

  /** The preferences row of a new client. */
  const NewClientPrefs := ClientPrefs("", 0)

  /** The client preferences in force for a request: none without a client
      name, otherwise the stored row or a fresh empty one. */
  function PrefsFor(prefs: map<PrefsKey, ClientPrefs>, user: string, client: Param): Option<ClientPrefs> {
    if client == "" then None
    else
      var key := PrefsKey(user, client);
      Some(if key in prefs then prefs[key] else NewClientPrefs)
  }

  /** The preferences table after the lookup, which creates missing rows. */
  function PrefsAfter(prefs: map<PrefsKey, ClientPrefs>, user: string, client: Param): (r: map<PrefsKey, ClientPrefs>)
    ensures prefs.Keys <= r.Keys && forall k :: k in prefs ==> r[k] == prefs[k]
    ensures client != "" ==> r.Keys == prefs.Keys + {PrefsKey(user, client)}
    ensures client == "" ==> r == prefs
  {
    var key := PrefsKey(user, client);
    if client != "" && key !in prefs then prefs[key := NewClientPrefs] else prefs
  }

  /** `maxBitRate` as the server reads it: absent, a number, or the
      invalid-bitrate error when `int()` rejects it. */
  function BitrateCap(maxBitRate: Param): Result<Option<int>, StreamError> {
    if maxBitRate == "" then Success(None)
    else match ParseInt(maxBitRate)
      case None => Failure(InvalidBitrate)
      case Some(v) => Success(Some(v))
  }

  /** The decision as a table: the three reasons to transcode (a bitrate cap
      below the source rate, an explicit format other than the source's,
      a lossless FLAC source with no format asked), the destination format
      (the lossless target, else the client's preferred format, else the
      asked format, else the source's) and the destination bitrate (the
      lossless target, else the least of the source rate, the cap and the
      client's preferred rate, where set). */
  function Decide(src: string, srcBitrate: int, req: StreamRequest, user: string, prefs: map<PrefsKey, ClientPrefs>): Result<Decision, StreamError> {
    DecideFrom(src, srcBitrate, Lower(req.format), BitrateCap(req.maxBitRate), PrefsFor(prefs, user, req.client))
  }

  /** The table of `Decide`, from the lower-cased format, the cap as read and
      the client preferences in force. */
  function DecideFrom(src: string, srcBitrate: int, fmt: string, cap: Result<Option<int>, StreamError>, cp: Option<ClientPrefs>): Result<Decision, StreamError> {
    if cap.Failure? then Failure(cap.error)
    else if fmt == "" && src == "flac" then Success(Decision(true, "ogg", 320, AudioOgg))
    else
      var capped := cap.value.Some? && cap.value.value != 0 && cap.value.value < srcBitrate;
      var asked := fmt != "" && fmt != "raw" && fmt != src;
      var rate := if capped then cap.value.value else srcBitrate;
      Success(Decision(
        capped || asked,
        if cp.Some? && cp.value.format != "" then cp.value.format
        else if asked then fmt
        else src,
        if cp.Some? && cp.value.bitrate != 0 && cp.value.bitrate < rate then cp.value.bitrate else rate,
        if asked then GuessedFrom(fmt) else GuessedFrom("a." + src)))
  }

  /** The planning steps of the stream endpoint, in the order the server
      takes them: each step may set the transcode flag or replace the
      destination format and bitrate chosen so far. */
  method PlanStream(src: string, srcBitrate: int, req: StreamRequest, user: string, prefs: map<PrefsKey, ClientPrefs>)
    returns (r: Result<Decision, StreamError>, prefs': map<PrefsKey, ClientPrefs>)
    ensures r == Decide(src, srcBitrate, req, user, prefs)
    ensures prefs' == if r.Failure? then prefs else PrefsAfter(prefs, user, req.client)
  {
    prefs' := prefs;
    var format := req.format;
    if format != "" {
      format := Lower(format);
    }
    assert format == Lower(req.format);

    // The table's intermediate values, to follow the steps against.
    ghost var cap := BitrateCap(req.maxBitRate);
    ghost var cp := PrefsFor(prefs, user, req.client);
    assert Decide(src, srcBitrate, req, user, prefs) == DecideFrom(src, srcBitrate, format, cap, cp);
    ghost var capped := cap.Success? && cap.value.Some? && cap.value.value != 0 && cap.value.value < srcBitrate;
    ghost var asked := format != "" && format != "raw" && format != src;
    ghost var rate := if capped then cap.value.value else srcBitrate;

    var doTranscoding := false;
    var dstSuffix := src;
    var dstBitrate := srcBitrate;
    var dstMime := GuessedFrom("a." + src);

    if req.maxBitRate != "" {
      var parsed := ParseInt(req.maxBitRate);
      if parsed.None? {
        assert cap == Failure(InvalidBitrate);
        return Failure(InvalidBitrate), prefs';
      }
      var maxBitRate := parsed.value;
      assert cap == Success(Some(maxBitRate));
      if dstBitrate > maxBitRate && maxBitRate != 0 {
        doTranscoding := true;
        dstBitrate := maxBitRate;
      }
    }
    assert doTranscoding == capped && dstBitrate == rate;

    if format != "" && format != "raw" && format != src {
      doTranscoding := true;
      dstSuffix := format;
      dstMime := GuessedFrom(format);
    }
    assert doTranscoding == (capped || asked);
    assert dstSuffix == if asked then format else src;
    assert dstMime == if asked then GuessedFrom(format) else GuessedFrom("a." + src);

    if req.client != "" {
      var key := PrefsKey(user, req.client);
      var p: ClientPrefs;
      if key in prefs' {
        p := prefs'[key];
      } else {
        p := NewClientPrefs;
        prefs' := prefs'[key := p];
      }
      assert cp == Some(p);
      if p.format != "" {
        dstSuffix := p.format;
      }
      if p.bitrate != 0 && p.bitrate < dstBitrate {
        dstBitrate := p.bitrate;
      }
    }
    assert prefs' == PrefsAfter(prefs, user, req.client);
    assert dstSuffix == if cp.Some? && cp.value.format != "" then cp.value.format else if asked then format else src;
    assert dstBitrate == if cp.Some? && cp.value.bitrate != 0 && cp.value.bitrate < rate then cp.value.bitrate else rate;

    if format == "" && src == "flac" {
      dstSuffix := "ogg";
      dstBitrate := 320;
      dstMime := AudioOgg;
      doTranscoding := true;
    }

    r := Success(Decision(doTranscoding, dstSuffix, dstBitrate, dstMime));
  }

  /** A malformed `maxBitRate` is the only way planning fails. */
  lemma InvalidBitrateExactly(src: string, srcBitrate: int, req: StreamRequest, user: string, prefs: map<PrefsKey, ClientPrefs>)
    ensures Decide(src, srcBitrate, req, user, prefs).Failure?
        <==> req.maxBitRate != "" && ParseInt(req.maxBitRate).None?
    ensures Decide(src, srcBitrate, req, user, prefs).Failure? ==>
              Decide(src, srcBitrate, req, user, prefs).error == InvalidBitrate
  {
  }

  /** A FLAC source with no format asked is always transcoded to Ogg at 320,
      whatever cap or client preference applies. */
  lemma LosslessOverride(src: string, srcBitrate: int, req: StreamRequest, user: string, prefs: map<PrefsKey, ClientPrefs>)
    requires src == "flac" && Lower(req.format) == ""
    requires req.maxBitRate == "" || ParseInt(req.maxBitRate).Some?
    ensures Decide(src, srcBitrate, req, user, prefs) == Success(Decision(true, "ogg", 320, AudioOgg))
  {
  }

  /** Outside the lossless override the destination bitrate never exceeds the
      source bitrate, and it drops below it only for a cap or a client
      preference below it. */
  lemma BitrateNeverRaised(src: string, srcBitrate: int, req: StreamRequest, user: string, prefs: map<PrefsKey, ClientPrefs>)
    requires !(src == "flac" && Lower(req.format) == "")
    requires Decide(src, srcBitrate, req, user, prefs).Success?
    ensures Decide(src, srcBitrate, req, user, prefs).value.dstBitrate <= srcBitrate
    ensures var d := Decide(src, srcBitrate, req, user, prefs).value;
            d.dstBitrate < srcBitrate ==>
              (req.maxBitRate != "" && ParseInt(req.maxBitRate).value == d.dstBitrate)
              || (var cp := PrefsFor(prefs, user, req.client); cp.Some? && cp.value.bitrate == d.dstBitrate)
  {
  }

  /** A non-zero cap below the source rate turns transcoding on and becomes
      the destination bitrate, unless the client prefers a lower one still. */
  lemma CapApplied(src: string, srcBitrate: int, req: StreamRequest, user: string, prefs: map<PrefsKey, ClientPrefs>, c: int)
    requires !(src == "flac" && Lower(req.format) == "")
    requires req.maxBitRate != "" && ParseInt(req.maxBitRate) == Some(c)
    requires c != 0 && c < srcBitrate
    ensures var d := Decide(src, srcBitrate, req, user, prefs);
            var cp := PrefsFor(prefs, user, req.client);
            && d.Success? && d.value.transcode
            && d.value.dstBitrate == (if cp.Some? && cp.value.bitrate != 0 && cp.value.bitrate < c then cp.value.bitrate else c)
            && (cp.None? ==> d.value.dstBitrate == c)
  {
  }

  /** An asked format other than `raw` and the source's turns transcoding on
      and becomes the destination format, with its own MIME type, unless the
      client has a preferred format. */
  lemma FormatApplied(src: string, srcBitrate: int, req: StreamRequest, user: string, prefs: map<PrefsKey, ClientPrefs>)
    requires var f := Lower(req.format); f != "" && f != "raw" && f != src
    requires req.maxBitRate == "" || ParseInt(req.maxBitRate).Some?
    ensures var d := Decide(src, srcBitrate, req, user, prefs);
            var f := Lower(req.format);
            var cp := PrefsFor(prefs, user, req.client);
            && d.Success? && d.value.transcode && d.value.mime == GuessedFrom(f)
            && d.value.dstSuffix == (if cp.Some? && cp.value.format != "" then cp.value.format else f)
            && (cp.None? ==> d.value.dstSuffix == f)
  {
  }

  /** The client's preferred bitrate replaces the rate chosen so far (the
      cap, else the source rate) exactly when it is set and strictly lower. */
  lemma ClientBitrateApplied(src: string, srcBitrate: int, req: StreamRequest, user: string, prefs: map<PrefsKey, ClientPrefs>)
    requires !(src == "flac" && Lower(req.format) == "")
    requires Decide(src, srcBitrate, req, user, prefs).Success?
    requires PrefsFor(prefs, user, req.client).Some?
    ensures var cap := ParseInt(req.maxBitRate);
            var rate := if req.maxBitRate != "" && cap.value != 0 && cap.value < srcBitrate then cap.value else srcBitrate;
            var b := PrefsFor(prefs, user, req.client).value.bitrate;
            Decide(src, srcBitrate, req, user, prefs).value.dstBitrate == (if b != 0 && b < rate then b else rate)
  {
  }

  /** An mp3 at 320 kbit/s asked for with `maxBitRate=128` and no client is
      transcoded to mp3 at 128 kbit/s. */
  lemma CappedMp3Example(user: string, prefs: map<PrefsKey, ClientPrefs>)
    ensures Decide("mp3", 320, StreamRequest("128", "", ""), user, prefs) == Success(Decision(true, "mp3", 128, GuessedFrom("a.mp3")))
  {
    assert DigitsValue("128") == 128 by {
      assert "128"[..2] == "12" && "12"[..1] == "1" && "1"[..0] == "";
    }
    ParseDigits("128");
    assert Lower("") == "";
    assert "a." + "mp3" == "a.mp3";
    CapApplied("mp3", 320, StreamRequest("128", "", ""), user, prefs, 128);
  }

  /** Transcoding happens exactly for a cap below the source rate, an explicit
      format other than `raw` and the source's, or the lossless override;
      a client's preferred format alone never turns it on. */
  lemma TranscodeReasons(src: string, srcBitrate: int, req: StreamRequest, user: string, prefs: map<PrefsKey, ClientPrefs>)
    requires Decide(src, srcBitrate, req, user, prefs).Success?
    ensures var fmt := Lower(req.format);
            var cap := ParseInt(req.maxBitRate);
            (Decide(src, srcBitrate, req, user, prefs).value.transcode
             <==> (req.maxBitRate != "" && cap.value != 0 && cap.value < srcBitrate)
                  || (fmt != "" && fmt != "raw" && fmt != src)
                  || (fmt == "" && src == "flac"))
  {
  }

  /** The client-preference quirk: a stored preferred format renames the
      destination but, with no other reason, the raw file is still served. */
  lemma PreferredFormatAloneDoesNotTranscode(src: string, srcBitrate: int, user: string, client: string, prefs: map<PrefsKey, ClientPrefs>)
    requires src != "flac" && client != ""
    requires PrefsKey(user, client) in prefs && prefs[PrefsKey(user, client)].format != ""
    ensures var d := Decide(src, srcBitrate, StreamRequest("", "", client), user, prefs);
            d.Success? && !d.value.transcode && d.value.dstSuffix == prefs[PrefsKey(user, client)].format
  {
  }

  // ---------------------------------------------------------------------
  // Template selection

  /** The `[transcoding]` section of the configuration. */
  type Config = map<string, string>

  /** `config.get('transcoding', key)`, "" when missing. */
  function Conf(cfg: Config, key: string): string {
    if key in cfg then cfg[key] else ""
  }

  /** `a or b` on strings. */
  function Or(a: string, b: string): string {
    if a != "" then a else b
  }

  datatype Command = Single(cmdline: string) | Piped(decoder: string, encoder: string)

  /** The command table: the specific `transcoder_<src>_<dst>` template if
      set; failing that, when a decoder or an encoder is missing, the generic
      `transcoder` (and an error when it too is missing); when a decoder and
      an encoder are both configured and no specific transcoder is, the
      server trips over the missing transcoder. A substituted template with
      a '|' is a decoder and an encoder around its first '|'. */
  function CommandFor(cfg: Config, path: string, src: string, dst: string, rate: int): Result<Command, StreamError> {
    var specific := Conf(cfg, "transcoder_" + src + "_" + dst);
    var dec := Or(Conf(cfg, "decoder_" + src), Conf(cfg, "decoder"));
    var enc := Or(Conf(cfg, "encoder_" + dst), Conf(cfg, "encoder"));
    var template := if specific != "" then specific
                    else if dec == "" || enc == "" then Conf(cfg, "transcoder")
                    else "";
    if specific == "" && (dec == "" || enc == "") && template == "" then Failure(NoWayToTranscode(src, dst))
    else if template == "" then Failure(NoneNotIterable)
    else
      var line := PrepareCmdline(template, path, src, dst, rate).value;
      match PipeSplit(line)
      case Some((d, e)) => Success(Piped(d, e))
      case None =>
        if line != "" then Success(Single(line))
        else if dec == "" || enc == "" then Failure(ProcessFailed)
        else Success(Piped(PrepareCmdline(dec, path, src, dst, rate).value, PrepareCmdline(enc, path, src, dst, rate).value))
  }

  /** Template selection and the pipe split as the server performs them,
      reassigning `transcoder`, `decoder` and `encoder` step by step. */
  method BuildCommand(cfg: Config, path: string, src: string, dst: string, rate: int)
    returns (r: Result<Command, StreamError>)
    ensures r == CommandFor(cfg, path, src, dst, rate)
  {
    var transcoder := Conf(cfg, "transcoder_" + src + "_" + dst);
    var decoder := Or(Conf(cfg, "decoder_" + src), Conf(cfg, "decoder"));
    var encoder := Or(Conf(cfg, "encoder_" + dst), Conf(cfg, "encoder"));

    if transcoder == "" && (decoder == "" || encoder == "") {
      transcoder := Conf(cfg, "transcoder");
      if transcoder == "" {
        return Failure(NoWayToTranscode(src, dst));
      }
    }

    var t := PrepareCmdline(transcoder, path, src, dst, rate);
    var d := PrepareCmdline(decoder, path, src, dst, rate);
    var e := PrepareCmdline(encoder, path, src, dst, rate);

    if t.None? {
      return Failure(NoneNotIterable);
    }
    var pipe := IndexOf(t.value, "|");
    if pipe.Some? {
      var i := pipe.value;
      d := Some(t.value[..i]);
      e := Some(t.value[i + 1..]);
      t := None;
    }

    if t.None? || t.value == "" {
      if d.None? || e.None? {
        return Failure(ProcessFailed);
      }
      r := Success(Piped(d.value, e.value));
    } else {
      r := Success(Single(t.value));
    }
  }

  /** The specific template for the format pair wins whenever it is set. */
  lemma SpecificTemplateFirst(cfg: Config, path: string, src: string, dst: string, rate: int)
    requires Conf(cfg, "transcoder_" + src + "_" + dst) != ""
    ensures var line := PrepareCmdline(Conf(cfg, "transcoder_" + src + "_" + dst), path, src, dst, rate).value;
            && ('|' in line ==> CommandFor(cfg, path, src, dst, rate) == Success(Piped(PipeSplit(line).value.0, PipeSplit(line).value.1)))
            && ('|' !in line && line != "" ==> CommandFor(cfg, path, src, dst, rate) == Success(Single(line)))
  {
  }

  /** Planning fails with "No way to transcode" exactly when there is no
      specific transcoder, a decoder or an encoder is missing, and there is
      no generic transcoder either. */
  lemma NoWayExactly(cfg: Config, path: string, src: string, dst: string, rate: int)
    ensures CommandFor(cfg, path, src, dst, rate) == Failure(NoWayToTranscode(src, dst))
        <==> Conf(cfg, "transcoder_" + src + "_" + dst) == ""
             && (Or(Conf(cfg, "decoder_" + src), Conf(cfg, "decoder")) == ""
                 || Or(Conf(cfg, "encoder_" + dst), Conf(cfg, "encoder")) == "")
             && Conf(cfg, "transcoder") == ""
  {
  }

  /** A decoder/encoder pair without a transcoder template never reaches the
      pair: the server raises on the missing transcoder first. */
  lemma PairAloneRaises(cfg: Config, path: string, src: string, dst: string, rate: int)
    requires Conf(cfg, "transcoder_" + src + "_" + dst) == ""
    requires Or(Conf(cfg, "decoder_" + src), Conf(cfg, "decoder")) != ""
    requires Or(Conf(cfg, "encoder_" + dst), Conf(cfg, "encoder")) != ""
    ensures CommandFor(cfg, path, src, dst, rate) == Failure(NoneNotIterable)
  {
  }

  // ---------------------------------------------------------------------
  // The endpoint

  /** What the catalog knows about the requested track. */
  datatype TrackFile = TrackFile(path: string, suffix: string, bitrate: int)

  datatype Response = RawFile(path: string, mime: Mime) | Transcoded(command: Command, mime: Mime)

  /** `stream_media` from the track lookup to the choice of response: the
      raw file when the plan says not to transcode, otherwise the command the
      template table gives for the planned format pair and bitrate. */
  method StreamMedia(track: TrackFile, req: StreamRequest, user: string, prefs: map<PrefsKey, ClientPrefs>, cfg: Config)
    returns (r: Result<Response, StreamError>, prefs': map<PrefsKey, ClientPrefs>)
    ensures var plan := Decide(track.suffix, track.bitrate, req, user, prefs);
            r == match plan
                 case Failure(e) => Failure(e)
                 case Success(d) =>
                   if !d.transcode then Success(RawFile(track.path, d.mime))
                   else match CommandFor(cfg, track.path, track.suffix, d.dstSuffix, d.dstBitrate)
                        case Failure(e) => Failure(e)
                        case Success(c) => Success(Transcoded(c, d.mime))
    ensures r == Failure(InvalidBitrate) ==> prefs' == prefs
    ensures r != Failure(InvalidBitrate) ==> prefs' == PrefsAfter(prefs, user, req.client)
  {
    var plan;
    plan, prefs' := PlanStream(track.suffix, track.bitrate, req, user, prefs);
    if plan.Failure? {
      return Failure(plan.error), prefs';
    }
    var d := plan.value;
    if !d.transcode {
      return Success(RawFile(track.path, d.mime)), prefs';
    }
    var cmd := BuildCommand(cfg, track.path, track.suffix, d.dstSuffix, d.dstBitrate);
    if cmd.Failure? {
      return Failure(cmd.error), prefs';
    }
    r := Success(Transcoded(cmd.value, d.mime));
  }
}
