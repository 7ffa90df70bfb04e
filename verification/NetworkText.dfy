/** When the text of a generated network file can be read back: its keys are words, so it is
    enough that no value holds a newline, a backslash or a NUL. */
module NetworkText {
  import opened Wrappers
  import opened Strings
  import opened KeyFiles
  import opened KeyFileText
  import opened NetworkFile
  import opened NetworkSections

  predicate OneLineValue(v: Option<Option<string>>) {
    v.Some? ==> OneLine(Text(v.value))
  }

  /** No value the generator writes for the network ends its line or is an escape. */
  ghost predicate OneLineConfig(n: Config) {
    OneLine(n.ifname) && forall s: Source :: OneLineValue(ValueOf(n, s))
  }

  ghost predicate OneLineItem(it: Item) {
    forall f: ItemField :: OneLineValue(ItemValue(it, f))
  }

  // ------------------------------------------------------------------ keys

  lemma {:induction false} MatchKeysAreWords(f: Field)
    requires InMatch(f)
    ensures Word(KeyOf(f))
  {
  }

  lemma {:induction false} DeviceKeysAreWords(f: Field)
    requires f.Unmanaged? || f.LinkMac? || f.Arp? || f.Multicast? || f.AllMulticast? || f.Promiscuous?
    ensures Word(KeyOf(f))
  {
  }

  lemma {:induction false} OnlineKeysAreWords(f: Field)
    requires f.RequiredForOnline? || f.MtuBytes? || f.RequiredFamily? || f.ActivationPolicy?
    ensures Word(KeyOf(f))
  {
  }

  lemma {:induction false} ModeKeysAreWords(f: Field)
    requires f.Dhcp? || f.KeepConfiguration? || f.Lldp? || f.LinkLocal? || f.DhcpServer?
    ensures Word(KeyOf(f))
  {
  }

  lemma {:induction false} GenerationKeyIsWord()
    ensures Word(KeyOf(Ipv6Generation))
  {
  }

  lemma {:induction false} PrivacyKeyIsWord()
    ensures Word(KeyOf(Ipv6Privacy))
  {
  }

  lemma {:induction false} Ipv6OptionsAreWords(f: Field)
    requires f.Ipv6AcceptRa? || f.Ipv6Mtu?
    ensures Word(KeyOf(f))
  {
  }

  lemma {:induction false} NameKeysAreWords(f: Field)
    requires f.WithoutCarrier? || f.Dns? || f.Domains? || f.Ntp?
    ensures Word(KeyOf(f))
  {
  }

  lemma {:induction false} KeyIsWord(f: Field)
    ensures Word(KeyOf(f))
  {
    if InMatch(f) {
      MatchKeysAreWords(f);
    } else if f.RequiredForOnline? || f.MtuBytes? || f.RequiredFamily? || f.ActivationPolicy? {
      OnlineKeysAreWords(f);
    } else if InLink(f) {
      DeviceKeysAreWords(f);
    } else if f.WithoutCarrier? || f.Dns? || f.Domains? || f.Ntp? {
      NameKeysAreWords(f);
    } else if f.Ipv6Generation? {
      GenerationKeyIsWord();
    } else if f.Ipv6Privacy? {
      PrivacyKeyIsWord();
    } else if f.Ipv6AcceptRa? || f.Ipv6Mtu? {
      Ipv6OptionsAreWords(f);
    } else {
      ModeKeysAreWords(f);
    }
  }

  lemma {:induction false} AddressKeysAreWords(f: ItemField)
    requires f.FAddress? || f.FLabel? || f.FLifetime? || f.FDestination? || f.FGateway? || f.FSource?
    ensures Word(ItemKey(f))
  {
  }

  lemma {:induction false} RouteKeysAreWords(f: ItemField)
    requires f.FOnlink? || f.FTable? || f.FScope? || f.FType? || f.FMetric?
    ensures Word(ItemKey(f))
  {
  }

  lemma {:induction false} WindowKeysAreWords(f: ItemField)
    requires f.FInitcwnd? || f.FInitrwnd?
    ensures Word(ItemKey(f))
  {
  }

  lemma {:induction false} SwitchKeysAreWords(f: ItemField)
    requires f.FQuickAck? || f.FTfo? || f.FTtlPropagate?
    ensures Word(ItemKey(f))
  {
  }

  lemma {:induction false} ItemKeyIsWord(f: ItemField)
    ensures Word(ItemKey(f))
  {
    if f.FOnlink? || f.FTable? || f.FScope? || f.FType? || f.FMetric? {
      RouteKeysAreWords(f);
    } else if f.FInitcwnd? || f.FInitrwnd? {
      WindowKeysAreWords(f);
    } else if f.FQuickAck? || f.FTfo? || f.FTtlPropagate? {
      SwitchKeysAreWords(f);
    } else {
      AddressKeysAreWords(f);
    }
  }

  lemma {:induction false} NamesGood()
    ensures GoodName("Match") && GoodName("Link") && GoodName("Network")
    ensures GoodName("Address") && GoodName("Route")
  {
  }

  // ----------------------------------------------------------------- files

  lemma {:induction false} SetKeepsGood(secs: seq<Section>, s: string, k: string, v: Option<string>)
    requires Good(secs) && GoodName(s) && GoodKey(Key(k, v))
    ensures Good(Set(secs, s, k, v))
  {
  }

  lemma {:induction false} SetAllGood(secs: seq<Section>, n: Config, srcs: seq<Source>)
    requires Good(secs) && OneLineConfig(n)
    ensures Good(SetAll(secs, WritesFor(n, srcs)))
  {
    if srcs != [] {
      var init, last := srcs[..|srcs| - 1], srcs[|srcs| - 1];
      SetAllGood(secs, n, init);
      NextWrite(secs, WritesFor(n, init), SectionOf(last.field), KeyOf(last.field), ValueOf(n, last));
      if ValueOf(n, last).Some? {
        WriteGood(n, last);
        SetKeepsGood(SetAll(secs, WritesFor(n, init)), SectionOf(last.field), KeyOf(last.field),
            ValueOf(n, last).value);
      }
    }
  }

  lemma {:induction false} WriteGood(n: Config, s: Source)
    requires OneLineConfig(n) && ValueOf(n, s).Some?
    ensures GoodName(SectionOf(s.field)) && GoodKey(Key(KeyOf(s.field), ValueOf(n, s).value))
  {
    NamesGood();
    KeyIsWord(s.field);
    assert OneLineValue(ValueOf(n, s));
    WordKey(KeyOf(s.field), ValueOf(n, s).value);
  }

  lemma {:induction false} KeysGood(it: Item, fs: seq<ItemField>)
    requires OneLineItem(it)
    ensures forall j :: 0 <= j < |KeysFor(it, fs)| ==> GoodKey(KeysFor(it, fs)[j])
  {
    if fs != [] {
      var last := fs[|fs| - 1];
      KeysGood(it, fs[..|fs| - 1]);
      if ItemValue(it, last).Some? {
        ItemKeyIsWord(last);
        assert OneLineValue(ItemValue(it, last));
        WordKey(ItemKey(last), ItemValue(it, last).value);
      }
    }
  }

  lemma {:induction false} ItemsGood(its: seq<Item>)
    requires forall i :: 0 <= i < |its| ==> OneLineItem(its[i])
    ensures Good(ItemSections(its))
  {
    if its != [] {
      var last := its[|its| - 1];
      ItemsGood(its[..|its| - 1]);
      NamesGood();
      KeysGood(last, ITEM_FIELDS);
      assert GoodSection(ItemSection(last));
    }
  }

  /** A generated file can be saved and read back. */
  lemma {:induction false} FileGood(n: Config, between: seq<Section>, its: seq<Item>)
    requires OneLineConfig(n) && Good(between) && forall i :: 0 <= i < |its| ==> OneLineItem(its[i])
    ensures Good(File(n, between, its))
  {
    var start := Created(n.ifname);
    NamesGood();
    KeyIsWord(MatchName);
    WordKey("Name", Some(n.ifname));
    assert Good(start) by {
      assert GoodSection(start[0]);
    }
    SetAllGood(start, n, ORDER);
    ItemsGood(its);
  }
}
