/** The ratios both calibrations report. */
module Ratios {
  function Precision(tp: nat, fp: nat): real {
    if tp + fp > 0 then tp as real / (tp + fp) as real else 0.0
  }

  function F1(precision: real, recall: real): real {
    if precision + recall > 0.0 then 2.0 * precision * recall / (precision + recall) else 0.0
  }
}
