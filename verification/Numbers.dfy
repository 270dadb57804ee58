/** Bounds the models share. */
module Numbers {

  /** `Number.MAX_SAFE_INTEGER`. */
  const MAX_SAFE_INTEGER: int := 9007199254740991

  function Max(a: nat, b: nat): nat { if a < b then b else a }

  function Min(a: nat, b: nat): nat { if a < b then a else b }
}
