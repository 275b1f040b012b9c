/** The configuration holder of src/fibonacci/config.py: one object whose
    `backend` attribute names the active backend. The `Literal["py", "rs", "cpp"]`
    annotation is only a type hint, so the field holds any string. */
module Config {

  const DefaultBackend: string := "py"

  class Config {
    var backend: string

    /** A fresh configuration selects the pure-Python backend. */
    constructor ()
      ensures backend == DefaultBackend
    {
      backend := DefaultBackend;
    }

    /** `config.backend = tag`: stores the tag as given, without validation. */
    method SetBackend(tag: string)
      modifies this
      ensures backend == tag
    {
      backend := tag;
    }

    /** `config.backend`: the most recently stored tag; reading changes nothing. */
    method Backend() returns (tag: string)
      ensures tag == backend
    {
      tag := backend;
    }
  }

  /** Two reads with no write in between see the same tag. */
  method ReadTwice(cfg: Config) returns (first: string, second: string)
    ensures first == second == cfg.backend
  {
    first := cfg.Backend();
    second := cfg.Backend();
  }
}
