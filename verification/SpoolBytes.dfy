/**
 Crashes that cut the spool file between any two bytes. `open` reads the whole file as UTF-8, so a
 cut inside a character leaves a file it cannot read at all; every other cut is one of those
 between characters.
 */
module SpoolBytes {
  import opened Results
  import opened EntryJson
  import opened SpoolFile
  import opened FileSystem
  import opened Spool
  import opened Utf8
  import opened Text

  // ------------------------------------------------------------ prefixes of encoded text

  /** Two texts whose bytes agree on the shorter one agree on the text. */
  lemma {:induction false} EncodedPrefixIsPrefix(t: string, s: string)
    requires Encode(t) <= Encode(s)
    ensures t <= s
  {
    hide Encode, EncodeChar, DecodeChar;
    if t != "" {
      EncodeHead(t);
      CharLayout(t[0]);
      if s == "" {
        EncodeNothing();
        assert false;
      } else {
        EncodeHead(s);
        var n := |EncodeChar(t[0])|;
        var rest := Encode(s)[n..];
        assert Encode(s)[..n] == EncodeChar(t[0]);
        assert Encode(s) == EncodeChar(t[0]) + rest;
        CharRoundTrip(t[0], rest);
        CharRoundTrip(s[0], Encode(s[1..]));
        assert t[0] == s[0] && rest == Encode(s[1..]);
        assert Encode(t[1..]) == Encode(t)[n..];
        EncodedPrefixIsPrefix(t[1..], s[1..]);
      }
    }
  }

  lemma PrefixEncodes(t: string, s: string)
    requires t <= s
    ensures Encode(t) <= Encode(s)
  {
    assert s == t + s[|t|..];
    EncodeJoins(t, s[|t|..]);
  }

  /** The first bytes of a text decode if and only if they end where a character does. */
  lemma CutDecodesIffBoundary(s: string, k: nat)
    requires k <= |Encode(s)|
    ensures Decode(Encode(s)[..k]).Some? <==> IsBoundary(Encode(s), k)
    ensures Decode(Encode(s)[..k]).Some? ==> Decode(Encode(s)[..k]).value <= s
  {
    hide Encode, Decode;
    var bs := Encode(s)[..k];
    if IsBoundary(Encode(s), k) {
      var j := BoundarySplits(s, k);
      RoundTrip(s[..j]);
    }
    if Decode(bs).Some? {
      var t := Decode(bs).value;
      DecodedIsEncoded(bs);
      EncodedPrefixIsPrefix(t, s);
      PrefixEndsAtBoundary(s, |t|);
      assert s[..|t|] == t;
    }
  }

  // ------------------------------------------------------------ files as bytes

  /** What reading the whole file as text yields, if that succeeds. */
  datatype Reading = Unreadable | Readable(image: Option<string>)

  function Read(bytes: Option<seq<byte>>): Reading {
    if bytes.None? then Readable(None)
    else
      match Decode(bytes.value)
      case None => Unreadable
      case Some(text) => Readable(Some(text))
  }

  predicate SurvivesAsBytes(file: Option<File>, bytes: Option<seq<byte>>) {
    if file.None? then bytes.None?
    else bytes.Some? && Encode(file.value.durable) <= bytes.value <= Encode(file.value.Contents())
  }

  /** A crash may leave the spool file with these bytes: any cut of what was not synced. */
  ghost predicate CrashBytes(fs: Fs, bytes: Option<seq<byte>>) {
    SurvivesAsBytes(fs.main, bytes) || exists file | file in fs.superseded :: SurvivesAsBytes(file, bytes)
  }

  lemma SurvivorIsText(file: Option<File>, bytes: Option<seq<byte>>)
    requires SurvivesAsBytes(file, bytes) && Read(bytes).Readable?
    ensures Survives(file, Read(bytes).image)
  {
    hide Encode, Decode;
    if file.Some? {
      DecodedIsEncoded(bytes.value);
      var t := Decode(bytes.value).value;
      EncodedPrefixIsPrefix(t, file.value.Contents());
      EncodedPrefixIsPrefix(file.value.durable, t);
    }
  }

  lemma TextSurvivesAsBytes(file: Option<File>, image: Option<string>)
    requires Survives(file, image)
    ensures SurvivesAsBytes(file, if image.None? then None else Some(Encode(image.value)))
  {
    hide Encode;
    if file.Some? {
      PrefixEncodes(file.value.durable, image.value);
      PrefixEncodes(image.value, file.value.Contents());
    }
  }

  /** The crashes by bytes whose file can be read are exactly the crashes by characters. */
  lemma ReadableCrashes(fs: Fs, image: Option<string>)
    ensures CrashImage(fs, image) <==> exists bytes :: CrashBytes(fs, bytes) && Read(bytes) == Readable(image)
  {
    hide Encode, Decode, Survives, SurvivesAsBytes;
    if CrashImage(fs, image) {
      var bytes := if image.None? then None else Some(Encode(image.value));
      if image.Some? {
        RoundTrip(image.value);
      }
      if Survives(fs.main, image) {
        TextSurvivesAsBytes(fs.main, image);
      } else {
        var file :| file in fs.superseded && Survives(file, image);
        TextSurvivesAsBytes(file, image);
      }
      assert CrashBytes(fs, bytes) && Read(bytes) == Readable(image);
    }
    if bytes :| CrashBytes(fs, bytes) && Read(bytes) == Readable(image) {
      if SurvivesAsBytes(fs.main, bytes) {
        SurvivorIsText(fs.main, bytes);
      } else {
        var file :| file in fs.superseded && SurvivesAsBytes(file, bytes);
        SurvivorIsText(file, bytes);
      }
    }
  }

  // ------------------------------------------------------------ recovery at every byte

  /**
   Recovery at every byte of an append: whole lines followed by the first `k` bytes of one more
   line can be read if and only if no character is cut, and then replay the old entries, or the
   old entries and the new one once its line is complete. A cut inside a character makes the file
   unreadable, the old entries with it.
   */
  lemma RecoveryAtEveryByte(es: seq<Entry>, e: Entry, k: nat)
    requires k <= |Encode(EncodeLine(e) + "\n")|
    ensures var bytes := Encode(EncodeLine(e) + "\n");
            var reading := Read(Some(Encode(EncodeAll(es)) + bytes[..k]));
            && (reading.Readable? <==> IsBoundary(bytes, k))
            && (reading.Readable? ==>
                  Recover(reading.image) == if k < |Encode(EncodeLine(e))| then es else es + [e])
  {
    hide Encode, Decode, EncodeLine, EncodeAll, Parse;
    var front, line := EncodeAll(es), EncodeLine(e) + "\n";
    var bytes := Encode(line);
    var n := |Encode(front)|;
    EncodeJoins(front, line);
    EncodeJoins(EncodeLine(e), "\n");
    var whole := Encode(front + line);
    assert whole[..n + k] == Encode(front) + bytes[..k];
    CutDecodesIffBoundary(front + line, n + k);
    BoundaryBehind(Encode(front), bytes, k);
    if IsBoundary(bytes, k) {
      var j := BoundarySplits(line, k);
      var p := line[..j];
      EncodeJoins(front, p);
      RoundTrip(front + p);
      RecoveryAtEveryCut(es, e, p);
      if EncodeLine(e) <= p {
        PrefixEncodes(EncodeLine(e), p);
      } else {
        assert p < EncodeLine(e);
        ProperPrefixIsShorter(p, EncodeLine(e));
      }
    }
  }

  lemma ProperPrefixIsShorter(t: string, s: string)
    requires t < s
    ensures |Encode(t)| < |Encode(s)|
  {
    hide Encode;
    PrefixEncodes(t, s);
    if |Encode(t)| == |Encode(s)| {
      EncodedPrefixIsPrefix(s, t);
    }
  }

  lemma BoundaryBehind(a: seq<byte>, b: seq<byte>, k: nat)
    requires k <= |b|
    ensures IsBoundary(a + b, |a| + k) <==> IsBoundary(b, k)
  {
  }

  // ------------------------------------------------------------ sound states

  /** An append in place is running, and the crash cut its line inside a character. */
  ghost predicate CutInsideCharacter(s: State, bytes: Option<seq<byte>>) {
    && s.phase.Busy? && s.phase.call.AppendCall? && s.phase.plan == AppendOps(EncodeLine(s.phase.call.entry))
    && bytes.Some?
    && exists k :: && 0 <= k <= |Encode(EncodeLine(s.phase.call.entry))|
                   && !IsBoundary(Encode(EncodeLine(s.phase.call.entry)), k)
                   && bytes.value == Encode(EncodeAll(s.phase.before)) + Encode(EncodeLine(s.phase.call.entry))[..k]
  }

  lemma SyncedIsReadable(file: Option<File>, bytes: Option<seq<byte>>)
    requires file.Some? ==> file.value.pending == ""
    requires SurvivesAsBytes(file, bytes)
    ensures Read(bytes).Readable?
  {
    hide Encode, Decode;
    if file.Some? {
      assert file.value.Contents() == file.value.durable;
      assert bytes.value == Encode(file.value.durable);
      RoundTrip(file.value.durable);
    }
  }

  predicate AllSynced(fs: Fs) {
    && (fs.main.Some? ==> fs.main.value.pending == "")
    && forall i :: 0 <= i < |fs.superseded| && fs.superseded[i].Some? ==> fs.superseded[i].value.pending == ""
  }

  lemma AllSyncedIsReadable(fs: Fs, bytes: Option<seq<byte>>)
    requires AllSynced(fs) && CrashBytes(fs, bytes)
    ensures Read(bytes).Readable?
  {
    hide SurvivesAsBytes, Read;
    if SurvivesAsBytes(fs.main, bytes) {
      SyncedIsReadable(fs.main, bytes);
    } else {
      var file :| file in fs.superseded && SurvivesAsBytes(file, bytes);
      SyncedIsReadable(file, bytes);
    }
  }

  lemma RewriteIsSynced(fs: Fs, text: string, k: nat)
    requires k <= 5 && Settled(fs)
    ensures |RewriteOps(text)| == 5 && AllSynced(After(fs, RewriteOps(text), k))
  {
    hide After;
    RewriteProgress(fs, text, k);
  }

  lemma CutOfAppend(s: State, bytes: Option<seq<byte>>)
    requires Sound(s) && s.phase.Busy? && s.phase.call.AppendCall?
    requires s.phase.plan == AppendOps(EncodeLine(s.phase.call.entry))
    requires Stored(MainText(s.phase.start), s.phase.before) && Terminated(MainText(s.phase.start))
    requires CrashBytes(s.fs, bytes) && !AllSynced(s.fs)
    ensures Read(bytes).Unreadable? ==> CutInsideCharacter(s, bytes)
  {
    hide Encode, Decode, EncodeLine, EncodeAll, After, Terminated, Stored, Recover, Read, AppendOps;
    var p := s.phase;
    var line, text := EncodeLine(p.call.entry), EncodeAll(p.before);
    AppendLength(line);
    TextOfStored(MainText(p.start), p.before);
    AppendProgress(p.start, line, p.done);
    var all := Encode(line + "\n");
    EncodeJoins(line, "\n");
    EncodeJoins(text, line);
    EncodeJoins(text, line + "\n");
    var n := |Encode(text)|;
    var k := |bytes.value| - n;
    assert bytes.value == Encode(text) + all[..k];
    RecoveryAtEveryByte(p.before, p.call.entry, k);
    NewlineIsOneByte();
    if Read(bytes).Unreadable? {
      assert !IsBoundary(all, k) && k < |Encode(line)|;
      assert all[..k] == Encode(line)[..k] && all[k] == Encode(line)[k];
    }
  }

  lemma NewlineIsOneByte()
    ensures Encode("\n") == [10]
  {
    assert Encode("\n") == EncodeChar('\n') + Encode("");
  }

  lemma CutInsideIsUnreadable(s: State, bytes: Option<seq<byte>>)
    requires CutInsideCharacter(s, bytes)
    ensures Read(bytes).Unreadable?
  {
    hide Encode, Decode, EncodeLine, EncodeAll, Read;
    var e := s.phase.call.entry;
    var line := EncodeLine(e);
    var k :| && 0 <= k <= |Encode(line)| && !IsBoundary(Encode(line), k)
             && bytes.value == Encode(EncodeAll(s.phase.before)) + Encode(line)[..k];
    var all := Encode(line + "\n");
    EncodeJoins(line, "\n");
    assert all[..k] == Encode(line)[..k] && all[k] == Encode(line)[k];
    RecoveryAtEveryByte(s.phase.before, e, k);
  }

  /**
   Crash refinement to the byte: whatever bytes a crash leaves of a sound state, `open` cannot read
   them exactly if an append in place was cut inside a character of its line; otherwise a restart
   replays the list before the interrupted call or the list after it.
   */
  lemma CrashBytesRecover(s: State, bytes: Option<seq<byte>>)
    requires Sound(s) && CrashBytes(s.fs, bytes)
    ensures Read(bytes).Unreadable? <==> CutInsideCharacter(s, bytes)
    ensures Read(bytes).Readable? ==>
              Recover(Read(bytes).image) == Committed(s) || Recover(Read(bytes).image) == Intended(s)
  {
    hide Encode, EncodeLine, EncodeAll, After, Stored, Torn, Terminated, Recover, CrashImage, CrashBytes, Read;
    hide RewriteOps, AppendOps, CutInsideCharacter, AllSynced;
    if Read(bytes).Readable? {
      ReadableCrashes(s.fs, Read(bytes).image);
      CrashRecovers(s, Read(bytes).image);
    }
    if CutInsideCharacter(s, bytes) {
      CutInsideIsUnreadable(s, bytes);
    }
    if AllSynced(s.fs) {
      AllSyncedIsReadable(s.fs, bytes);
    } else if s.phase.Busy? {
      UnsyncedIsAppend(s);
      CutOfAppend(s, bytes);
    } else {
      SettledIsSynced(s.fs);
    }
  }

  lemma SettledIsSynced(fs: Fs)
    requires Settled(fs)
    ensures AllSynced(fs)
  {
  }

  lemma UnsyncedIsAppend(s: State)
    requires Sound(s) && s.phase.Busy? && !AllSynced(s.fs)
    ensures s.phase.call.AppendCall? && s.phase.plan == AppendOps(EncodeLine(s.phase.call.entry))
    ensures Stored(MainText(s.phase.start), s.phase.before) && Terminated(MainText(s.phase.start))
  {
    hide EncodeLine, EncodeAll, After, Stored, Torn, Terminated, Recover, RewriteOps, AppendOps, AllSynced;
    var p := s.phase;
    if p.plan == RewriteOps(EncodeAll(p.mem.entries)) {
      RewriteLength(EncodeAll(p.mem.entries));
      RewriteIsSynced(p.start, EncodeAll(p.mem.entries), p.done);
    } else if p.plan == [] {
      NoOperations(p.start, p.plan);
      SettledIsSynced(p.start);
    }
  }

  /** The same in every state of every safe run. */
  lemma RunRecoversBytes(states: seq<State>, events: seq<Event>, i: nat, bytes: Option<seq<byte>>)
    requires IsRun(states, events) && i < |states| && CrashBytes(states[i].fs, bytes)
    requires forall j :: 0 <= j < i ==> Safe(states[j], events[j])
    ensures Read(bytes).Unreadable? <==> CutInsideCharacter(states[i], bytes)
    ensures Read(bytes).Readable? ==>
              Recover(Read(bytes).image) == Committed(states[i]) || Recover(Read(bytes).image) == Intended(states[i])
  {
    hide Next, Safe, Sound, CrashBytes, Read, Recover, CutInsideCharacter;
    RunRecovers(states, events, i);
    CrashBytesRecover(states[i], bytes);
  }

  // ------------------------------------------------------------ which entries can be cut so

  predicate Ascii(s: string) { forall i :: 0 <= i < |s| ==> s[i] as int < 0x80 }

  lemma AsciiJoins(a: string, b: string)
    ensures Ascii(a + b) <==> Ascii(a) && Ascii(b)
  {
    assert forall i :: 0 <= i < |a| ==> (a + b)[i] == a[i];
    assert forall i :: 0 <= i < |b| ==> (a + b)[|a| + i] == b[i];
  }

  lemma EscapeCharIsAscii(c: char)
    ensures Ascii(EscapeChar(c)) <==> c as int < 0x80
  {
    if c as int >= 0x80 {
      assert EscapeChar(c)[0] == c;
    }
  }

  lemma {:induction false} EscapeIsAscii(s: string)
    ensures Ascii(Escape(s)) <==> Ascii(s)
  {
    hide EscapeChar;
    if s != "" {
      EscapeCharIsAscii(s[0]);
      EscapeIsAscii(s[1..]);
      AsciiJoins(EscapeChar(s[0]), Escape(s[1..]));
      AsciiJoins([s[0]], s[1..]);
      assert s == [s[0]] + s[1..];
    }
  }

  lemma DigitsAreAscii(n: nat)
    ensures Ascii(Digits(n))
  {
    hide Digits;
    DigitsRoundTrip(n);
    forall i | 0 <= i < |Digits(n)|
      ensures Digits(n)[i] as int < 0x80
    {
      assert Digits(n)[i] in Digits(n);
    }
  }

  lemma LineIsAscii(e: Entry)
    ensures Ascii(EncodeLine(e)) <==> Ascii(e.adif)
  {
    hide Digits, Escape;
    DigitsAreAscii(e.seqNo);
    DigitsAreAscii(e.receivedAt);
    EscapeIsAscii(e.adif);
    var a, b, c, d, f := "{\"seq\":", Digits(e.seqNo), ",\"adif\":\"", Escape(e.adif), "\"";
    AsciiJoins(a, b);
    AsciiJoins(a + b, c);
    AsciiJoins(a + b + c, d);
    AsciiJoins(a + b + c + d, f);
    AsciiJoins(a + b + c + d + f, ",\"received_at\":");
    AsciiJoins(a + b + c + d + f + ",\"received_at\":", Digits(e.receivedAt));
    AsciiJoins(a + b + c + d + f + ",\"received_at\":" + Digits(e.receivedAt), "}");
  }

  lemma {:induction false} AsciiHasBoundariesOnly(s: string, k: nat)
    requires Ascii(s) && k <= |Encode(s)|
    ensures IsBoundary(Encode(s), k)
  {
    if s != "" {
      assert Ascii(s[1..]);
      if k > 0 {
        AsciiHasBoundariesOnly(s[1..], k - 1);
      }
    }
  }

  lemma OtherHasCut(s: string) returns (k: nat)
    requires !Ascii(s)
    ensures k < |Encode(s)| && !IsBoundary(Encode(s), k)
  {
    hide EncodeChar;
    var j :| 0 <= j < |s| && s[j] as int >= 0x80;
    var front, behind := s[..j], s[j..];
    assert s == front + behind;
    EncodeJoins(front, behind);
    CharLayout(s[j]);
    TakesMoreBytes(s[j]);
    assert Encode(behind)[1] == EncodeChar(s[j])[1];
    k := |Encode(front)| + 1;
  }

  lemma TakesMoreBytes(c: char)
    requires c as int >= 0x80
    ensures |EncodeChar(c)| > 1
  {
  }

  /** An append in place that has written its line, and not yet its newline. */
  function LineWritten(s: State, adif: string, now: nat): (s': State)
    requires s.phase.Ready? && !Overflows(s.phase.mem)
  {
    var s1 := BeginAppend(s, adif, now);
    AppendLength(EncodeLine(s1.phase.call.entry));
    State(After(s.fs, s1.phase.plan, 2), s1.phase.(done := 2))
  }

  lemma LineWrittenIsSound(s: State, adif: string, now: nat)
    requires Sound(s) && s.phase.Ready? && Terminated(MainText(s.fs)) && !Overflows(s.phase.mem)
    ensures Sound(LineWritten(s, adif, now))
  {
    hide EncodeLine, EncodeAll, After, AppendOps, Terminated, Sound, AppendMem;
    var s1 := BeginAppend(s, adif, now);
    AppendLength(EncodeLine(s1.phase.call.entry));
    AppendIsSound(s, adif, now);
    AdvanceIsSound(s1);
    AdvanceIsSound(Advance(s1));
    TwoSteps(s1);
  }

  lemma AsciiIsNotCut(s: State, bytes: Option<seq<byte>>)
    requires s.phase.Busy? && s.phase.call.AppendCall? && Ascii(s.phase.call.entry.adif)
    ensures !CutInsideCharacter(s, bytes)
  {
    hide Encode, EncodeLine, EncodeAll, Ascii;
    var line := EncodeLine(s.phase.call.entry);
    LineIsAscii(s.phase.call.entry);
    forall k | 0 <= k <= |Encode(line)|
      ensures IsBoundary(Encode(line), k)
    {
      AsciiHasBoundariesOnly(line, k);
    }
  }

  /**
   An append in place can be cut so that the spool file cannot be read if and only if its ADIF has
   a character outside ASCII.
   */
  lemma UnreadableCutIffNotAscii(s: State, adif: string, now: nat)
    requires Sound(s) && s.phase.Ready? && Terminated(MainText(s.fs)) && !Overflows(s.phase.mem)
    ensures (exists bytes :: CrashBytes(LineWritten(s, adif, now).fs, bytes) && Read(bytes).Unreadable?)
       <==> !Ascii(adif)
  {
    hide Sound, CrashBytes, Read, Ascii, CutInsideCharacter, Terminated;
    var s2 := LineWritten(s, adif, now);
    LineWrittenIsSound(s, adif, now);
    if bytes :| CrashBytes(s2.fs, bytes) && Read(bytes).Unreadable? {
      CrashBytesRecover(s2, bytes);
      if Ascii(adif) {
        AsciiIsNotCut(s2, bytes);
      }
    }
    if !Ascii(adif) {
      var bytes := UnreadableCut(s, adif, now);
    }
  }

  lemma UnreadableCut(s: State, adif: string, now: nat) returns (bytes: Option<seq<byte>>)
    requires Sound(s) && s.phase.Ready? && Terminated(MainText(s.fs)) && !Overflows(s.phase.mem) && !Ascii(adif)
    ensures CrashBytes(LineWritten(s, adif, now).fs, bytes) && Read(bytes).Unreadable?
  {
    hide Encode, EncodeLine, EncodeAll, After, AppendOps, Stored, Terminated, Numbered, CrashBytes, Read, Ascii;
    var es, e := s.phase.mem.entries, Entry(s.phase.mem.nextSeq, adif, now);
    LineIsAscii(e);
    var k := OtherHasCut(EncodeLine(e));
    bytes := Some(Encode(EncodeAll(es)) + Encode(EncodeLine(e))[..k]);
    CutInsideIsUnreadable(LineWritten(s, adif, now), bytes);
    CutHappens(s.fs, es, EncodeLine(e), k);
  }

  lemma TwoSteps(s: State)
    requires s.phase.Busy? && s.phase.done == 0 && s.fs == s.phase.start && |s.phase.plan| > 2
    ensures Advance(Advance(s)) == State(After(s.fs, s.phase.plan, 2), s.phase.(done := 2))
  {
    hide Apply;
    NoOperations(s.fs, s.phase.plan);
  }

  lemma CutHappens(fs: Fs, es: seq<Entry>, line: string, k: nat)
    requires Settled(fs) && Stored(MainText(fs), es) && Terminated(MainText(fs)) && k <= |Encode(line)|
    ensures |AppendOps(line)| == 4
    ensures CrashBytes(After(fs, AppendOps(line), 2), Some(Encode(EncodeAll(es)) + Encode(line)[..k]))
  {
    hide Encode, EncodeAll, After, Terminated, Stored;
    TextOfStored(MainText(fs), es);
    AppendProgress(fs, line, 2);
    EncodeJoins(EncodeAll(es), line);
  }
}
