/** The instantiation options the core reads. The configuration loader
    (wasm_config.rs) is not part of this model; only the fields the core
    consults are kept. */
module WasmConfig {
  import opened Wrappers
  import opened MachineInts

  /** How host objects cross into the guest. */
  datatype ExternBindingType = NoBinding | Registry | Native

  datatype Config = Config(
    externBind: ExternBindingType,
    withWasi: bool,
    maxMemory: Option<u64>,
    maxEntries: Option<u64>,
    epochTimeout: u64)

  /** The model's stand-in for `Config::default()`: no bridge, no WASI,
      no limits and no deadline. */
  const DefaultConfig: Config := Config(NoBinding, false, None, None, 0)
}
