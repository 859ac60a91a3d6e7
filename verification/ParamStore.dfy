/** The parameter registers and their stored config (holding_reg_save and holding_reg_load in
    src/modbus/regmap.c). */
module ParamStore {
  import opened Bytes
  import opened RegBits
  import opened ConfigRecord
  import ConfigRuns
  import ConfigStore
  import RegMap

  /** Registers 0x01 to 0x0D, in the order of the config fields; the last four are the IP address. */
  const FIRST := 0x01
  const IP := 0x0A
  const PLAIN := 9

  /** ip_addr_valid, on the octets as they are truncated to bytes. */
  predicate IpValid(ip: seq<word>)
    requires |ip| == 4
  {
    var a, d := Lo16(ip[0]), Lo16(ip[3]);
    !(d == 0 || d == 0xFF) && !(a == 0 || a == 127 || a >= 224)
  }

  function IpOf(h: seq<word>): seq<word>
    requires |h| == RegMap.HOLDING
  {
    h[IP..IP + 4]
  }

  /** The config that is saved: an invalid address keeps the old one. */
  function Exported(h: seq<word>, old_cfg: Cfg): (c: Cfg)
    requires |h| == RegMap.HOLDING
  {
    h[FIRST..FIRST + PLAIN] + if IpValid(IpOf(h)) then IpOf(h) else old_cfg[PLAIN..]
  }

  /** The registers after loading: an invalid address is not taken over. */
  function Imported(h: seq<word>, c: Cfg): (r: seq<word>)
    requires |h| == RegMap.HOLDING
    ensures |r| == RegMap.HOLDING
  {
    h[..FIRST] + c[..PLAIN] + (if IpValid(c[PLAIN..]) then c[PLAIN..] else IpOf(h)) + h[IP + 4..]
  }

  function Parameters(h: seq<word>): seq<word>
    requires |h| == RegMap.HOLDING
  {
    h[FIRST..IP + 4]
  }

  /** After saving, and loading into the registers a boot begins with, the parameters are as they were
      exactly when their IP address was valid; all other registers are left alone. */
  lemma SaveLoadIff(h: seq<word>, old_cfg: Cfg, boot: seq<word>)
    requires |h| == |boot| == RegMap.HOLDING && IpValid(IpOf(boot))
    ensures var r := Imported(boot, Exported(h, old_cfg));
            && (Parameters(r) == Parameters(h) <==> IpValid(IpOf(h)))
            && r[FIRST..IP] == h[FIRST..IP]
            && r[..FIRST] == boot[..FIRST] && r[IP + 4..] == boot[IP + 4..]
  {
    hide IpValid;
    var c := Exported(h, old_cfg);
    var r := Imported(boot, c);
    assert c[..PLAIN] == h[FIRST..FIRST + PLAIN];
    assert IpOf(r) == if IpValid(c[PLAIN..]) then c[PLAIN..] else IpOf(boot);
    assert Parameters(r) == r[FIRST..IP] + IpOf(r) && Parameters(h) == h[FIRST..IP] + IpOf(h);
    if IpValid(IpOf(h)) {
      assert c[PLAIN..] == IpOf(h);
    } else {
      assert IpValid(IpOf(r));
      assert Parameters(r)[PLAIN..] == IpOf(r) && Parameters(h)[PLAIN..] == IpOf(h);
    }
  }

  /** holding_reg_save */
  method HoldingRegSave(regs: RegMap.Regs, store: ConfigStore.Store)
    returns (rc: int, ghost cut: ConfigRuns.Cut)
    requires regs.Valid() && store.Valid()
    modifies store, store.iof`powered, store.iof.mem
    ensures store.Valid() && (rc == 0 || rc == -1) && ConfigRuns.CutOk(cut)
    ensures var cfg := Exported(regs.holding_reg[..], old(if store.inited then store.cur else ConfigRuns.DEFAULTS));
            && ConfigStore.DiskOf(store.iof.Image())
               == ConfigRuns.Saved(ConfigStore.DiskOf(old(store.iof.Image())), old(store.RamView()), cfg, cut)
            && (rc == 0 ==> store.inited && store.cur == cfg)
  {
    hide IpValid, ConfigRuns.Saved, ConfigStore.DiskOf;
    var cfg := store.Get();
    var h := regs.holding_reg[..];
    ghost var old_cfg := cfg;
    var saved: Cfg := h[FIRST..FIRST + PLAIN] + cfg[PLAIN..];
    if IpValid(IpOf(h)) {
      saved := saved[..PLAIN] + IpOf(h);
    }
    assert saved == Exported(h, old_cfg);
    rc, cut := store.Save(saved);
  }

  /** holding_reg_load */
  method HoldingRegLoad(regs: RegMap.Regs, store: ConfigStore.Store)
    requires regs.Valid() && store.Valid()
    modifies regs.holding_reg
    ensures regs.holding_reg[..]
            == Imported(old(regs.holding_reg[..]), if store.inited then store.cur else ConfigRuns.DEFAULTS)
  {
    hide IpValid;
    var cfg := store.Get();
    var r := regs.holding_reg;
    forall i | 0 <= i < PLAIN {
      r[FIRST + i] := cfg[i];
    }
    if IpValid(cfg[PLAIN..]) {
      forall i | 0 <= i < 4 {
        r[IP + i] := cfg[PLAIN + i];
      }
    }
    assert r[..] == Imported(old(r[..]), cfg);
  }
}
